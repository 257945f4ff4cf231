/** SocketHandler: sockets with work to do, sockets to be added, and sockets to be erased. */
module SocketHandler {
  import opened Bytes

  const INVALID_SOCKET: int := -1

  datatype Work = CallOnConnect | Detach | Timeout | Retry | Close

  /** What else CheckClose asks of a socket. */
  datatype Traits = Traits(tcp: bool, lost: bool, reconnect: bool, connected: bool, flush: bool,
                           ssl: bool, outputLength: nat, shutWr: bool, retain: bool,
                           connecting: bool, connectTimeout: int, address: bool)

  /** What a callback does to one of the sockets. */
  datatype Deed =
    | SetCallOnConnect(who: nat, x: bool)
    | SetDetach(who: nat, x: bool)
    | SetTimeout(who: nat, secs: int)
    | SetRetry(who: nat, x: bool)
    | SetClose(who: nat, x: bool)
    | SetTraits(who: nat, traits: Traits)
    | Add(who: nat)

  /** The calls that the checks make to the user; OnConnect stands for its variants too. */
  datatype Call = OnConnect(uid: nat) | OnTimeout(uid: nat) | OnConnectTimeout(uid: nat)

  /** A callback that takes no call-on-connect back and leaves the timeouts alone. */
  predicate Gentle(scripts: seq<seq<Deed>>) {
    forall i, j :: 0 <= i < |scripts| && 0 <= j < |scripts[i]| ==> GentleDeed(scripts[i][j])
  }

  lemma GentleRest(scripts: seq<seq<Deed>>)
    requires scripts != [] && Gentle(scripts)
    ensures Gentle(scripts[1..])
  {
  }

  lemma NoneIsGentle()
    ensures Gentle([])
  {
  }

  predicate GentleDeed(deed: Deed) { (deed.SetCallOnConnect? ==> deed.x) && !deed.SetTimeout? }

  /** The fields of a socket that checks and callbacks change. */
  datatype View = View(uid: nat, deleteByHandler: bool, fd: int,
                       callOnConnect: bool, detach: bool, retry: bool, close: bool,
                       timeoutStart: int, timeoutLimit: int, closedAt: int, traits: Traits, erased: bool)

  /** CheckClose holds on to a socket that still has data to flush, for five seconds. */
  predicate Lingers(v: View, now: int) {
    && !(v.traits.lost && !(v.traits.tcp && v.traits.reconnect))
    && v.traits.tcp && v.traits.connected && v.traits.flush && !v.traits.ssl && now - v.closedAt < 5
  }

  /** CheckClose opens the connection anew. */
  predicate Reconnects(v: View, now: int) {
    v.traits.tcp && v.traits.connected && v.traits.reconnect && !Lingers(v, now)
  }

  /** Whether the check of some work queues a socket for erasing. */
  predicate Leaves(w: Work, v: View, now: int) {
    match w
    case CallOnConnect => false
    case Detach => false
    case Timeout => false
    case Retry => v.retry
    case Close => v.close && (Lingers(v, now) ==> v.traits.outputLength == 0 && v.traits.shutWr)
  }

  /** The calls that the check of some work makes for a socket. */
  function CallsFor(w: Work, v: View, now: int): seq<Call> {
    match w
    case CallOnConnect => if v.callOnConnect then [OnConnect(v.uid)] else []
    case Timeout =>
      if v.timeoutStart > 0 && v.timeoutLimit > 0 && now - v.timeoutStart > v.timeoutLimit
      then [if v.traits.connecting then OnConnectTimeout(v.uid) else OnTimeout(v.uid)]
      else []
    case _ => []
  }

  /** The descriptors under which sockets are due for a call. */
  ghost function DueOf(w: Work, now: int, sockets: map<int, Socket>, connecting: set<Socket>,
                       timers: map<Socket, (int, int)>): set<int>
  {
    set k | k in sockets &&
      if w == CallOnConnect then sockets[k] in connecting
      else sockets[k] in timers && timers[sockets[k]].0 > 0 && timers[sockets[k]].1 > 0
           && now - timers[sockets[k]].0 > timers[sockets[k]].1
  }

  /** The socket after the check of some work, if no callback interferes; `fd` is what a new
      connection gets. */
  function After(w: Work, v: View, now: int, fd: int): (r: View)
    ensures r.uid == v.uid && r.deleteByHandler == v.deleteByHandler
  {
    match w
    case CallOnConnect =>
      if v.callOnConnect then v.(callOnConnect := false, traits := v.traits.(connected := true)) else v
    case Detach => v
    case Timeout =>
      if !(v.timeoutStart > 0 && v.timeoutLimit > 0 && now - v.timeoutStart > v.timeoutLimit) then v
      else if v.traits.connecting && v.traits.connectTimeout != 0 then
        v.(timeoutStart := now, timeoutLimit := v.traits.connectTimeout)
      else v.(timeoutStart := 0, timeoutLimit := 0)
    case Retry =>
      if !v.retry then v else v.(retry := false, fd := if v.traits.address then fd else INVALID_SOCKET)
    case Close =>
      if !v.close then v
      else if v.traits.lost && !(v.traits.tcp && v.traits.reconnect) then v.(erased := v.erased || v.deleteByHandler)
      else if Lingers(v, now) then
        if v.traits.outputLength > 0 then v
        else if !v.traits.shutWr then v.(traits := v.traits.(shutWr := true))
        else v.(fd := INVALID_SOCKET, erased := v.erased || v.deleteByHandler)
      else if Reconnects(v, now) then
        v.(close := false, traits := v.traits.(connected := false),
           fd := if v.traits.address then fd else INVALID_SOCKET)
      else if v.traits.retain && !v.traits.lost then v.(close := false, erased := v.erased || v.deleteByHandler)
      else v.(fd := INVALID_SOCKET, erased := v.erased || v.deleteByHandler)
  }

  /** One of what is left to do, in any order. */
  method Pick<T>(todo: set<T>) returns (k: Option<T>)
    ensures if k.Some? then k.value in todo else todo == {}
  {
    if j :| j in todo {
      return Some(j);
    } else {
      return None;
    }
  }

  class Socket {
    const uid: nat
    const handler: SocketHandler
    var fd: int
    var callOnConnect: bool
    var detach: bool
    var retry: bool
    var close: bool
    var timeoutStart: int
    var timeoutLimit: int
    var closedAt: int
    var traits: Traits
    const deleteByHandler: bool
    var erasedByHandler: bool
    var detached: bool

    constructor (handler: SocketHandler, uid: nat, fd: int, traits: Traits, deleteByHandler: bool)
      ensures this.handler == handler && this.uid == uid && this.fd == fd && this.traits == traits
      ensures this.deleteByHandler == deleteByHandler && !erasedByHandler && !detached
      ensures forall w :: !Pending(w)
    {
      this.handler, this.uid, this.fd, this.traits := handler, uid, fd, traits;
      this.deleteByHandler, erasedByHandler, detached := deleteByHandler, false, false;
      callOnConnect, detach, retry, close := false, false, false, false;
      timeoutStart, timeoutLimit, closedAt := 0, 0, 0;
    }

    predicate Pending(w: Work)
      reads `callOnConnect, `detach, `retry, `close, `timeoutStart, `timeoutLimit
    {
      match w
      case CallOnConnect => callOnConnect
      case Detach => detach
      case Timeout => timeoutStart > 0 && timeoutLimit > 0
      case Retry => retry
      case Close => close
    }

    function Now(): View
      reads this
    {
      View(uid, deleteByHandler, fd, callOnConnect, detach, retry, close,
           timeoutStart, timeoutLimit, closedAt, traits, erasedByHandler)
    }

    /** Whether the timeout is over. */
    predicate TimeoutOver(now: int)
      reads this
    {
      timeoutStart > 0 && now - timeoutStart > timeoutLimit
    }

    function TimedOut(connecting: bool): Call {
      if connecting then OnConnectTimeout(uid) else OnTimeout(uid)
    }

    method SetCallOnConnect(x: bool)
      modifies this`callOnConnect, handler`checkCallOnConnect
      ensures callOnConnect == x
      ensures handler.checkCallOnConnect == (old(handler.checkCallOnConnect) || x)
    {
      callOnConnect := x;
      if x {
        handler.checkCallOnConnect := true;
      }
    }

    method SetDetach(x: bool)
      modifies this`detach, handler`checkDetach
      ensures detach == x
      ensures handler.checkDetach == (old(handler.checkDetach) || x)
    {
      detach := x;
      if x {
        handler.checkDetach := true;
      }
    }

    method SetTimeout(secs: int, now: int)
      modifies this`timeoutStart, this`timeoutLimit, handler`checkTimeout
      ensures timeoutStart == (if secs == 0 then 0 else now) && timeoutLimit == secs
      ensures handler.checkTimeout == (old(handler.checkTimeout) || secs != 0)
    {
      if secs == 0 {
        timeoutStart, timeoutLimit := 0, 0;
        return;
      }
      timeoutStart, timeoutLimit := now, secs;
      handler.checkTimeout := true;
    }

    method SetRetryClientConnect(x: bool)
      modifies this`retry, handler`checkRetry
      ensures retry == x
      ensures handler.checkRetry == (old(handler.checkRetry) || x)
    {
      retry := x;
      if x {
        handler.checkRetry := true;
      }
    }

    method SetCloseAndDelete(x: bool, now: int)
      modifies this`close, this`closedAt, handler`checkClose
      ensures close == x && closedAt == if x && !old(close) then now else old(closedAt)
      ensures handler.checkClose == (old(handler.checkClose) || (x && !old(close)))
    {
      if x != close {
        close := x;
        if x {
          closedAt := now;
          handler.checkClose := true;
        }
      }
    }
  }

  class SocketHandler {
    const slave: bool
    const maxCount: nat
    var sockets: map<int, Socket>
    var add: seq<Socket>
    var delete: seq<Socket>
    var fdsErase: seq<nat>
    var maxsock: int
    var checkCallOnConnect: bool
    var checkDetach: bool
    var checkTimeout: bool
    var checkRetry: bool
    var checkClose: bool
    // the environment: every socket of this handler, and what the coming callbacks do
    var population: seq<Socket>
    var scripts: seq<seq<Deed>>
    var descriptors: seq<int>
    ghost var calls: seq<Call>

    predicate Flag(w: Work)
      reads `checkCallOnConnect, `checkDetach, `checkTimeout, `checkRetry, `checkClose
    {
      match w
      case CallOnConnect => checkCallOnConnect
      case Detach => checkDetach
      case Timeout => checkTimeout
      case Retry => checkRetry
      case Close => checkClose
    }

    /** Work is not lost on a socket: its flag is raised, or the socket is about to be erased. */
    predicate Served(w: Work, p: Socket)
      reads `checkCallOnConnect, `checkDetach, `checkTimeout, `checkRetry, `checkClose, `fdsErase
      reads p`callOnConnect, p`detach, p`retry, p`close, p`timeoutStart, p`timeoutLimit
    {
      p.Pending(w) ==> Flag(w) || p.uid in fdsErase
    }

    /** The sockets named anywhere belong to the handler, and a uid names one socket. */
    ghost predicate Shape()
      reads `population, `sockets, `add, `delete
    {
      && (forall p :: p in population ==> p.handler == this)
      && (forall p, q :: p in population && q in population && p.uid == q.uid ==> p == q)
      && (forall k :: k in sockets ==> sockets[k] in population)
      && (forall p :: p in add ==> p in population)
      && (forall p :: p in delete ==> p in population)
    }

    ghost predicate NoLostWork()
      requires Shape()
      reads this, population
    {
      forall k, w :: k in sockets ==> Served(w, sockets[k])
    }

    /** A socket is held under one descriptor, which it still has unless it was closed. */
    ghost predicate Settled()
      requires Shape()
      reads `sockets, `fdsErase, `population, `add, `delete, population`fd
    {
      && (forall j, k :: j in sockets && k in sockets && sockets[j] == sockets[k] ==> j == k)
      && Astray() == {}
    }

    /** select is told of every descriptor that stays. */
    ghost predicate Watched()
      requires Shape()
      reads `sockets, `maxsock, `fdsErase, `population, `add, `delete
    {
      forall k :: k in sockets ==> k <= maxsock || sockets[k].uid in fdsErase
    }

    ghost predicate Valid()
      reads this, population
      ensures Valid() ==> Shape()
    {
      Shape() && NoLostWork() && Settled() && Watched()
    }

    /** What changes only by appending to the queues. */
    twostate predicate Moves()
      reads this
    {
      && Shape() && population == old(population) && sockets == old(sockets)
      && delete == old(delete) && maxsock == old(maxsock)
      && old(add) <= add && old(fdsErase) <= fdsErase && |scripts| <= |old(scripts)|
    }

    ghost function Raised(): set<Work>
      reads `checkCallOnConnect, `checkDetach, `checkTimeout, `checkRetry, `checkClose
    {
      set w | Flag(w)
    }

    /** The work that is lost at the moment. */
    ghost function Lost(): set<(Work, Socket)>
      reads `checkCallOnConnect, `checkDetach, `checkTimeout, `checkRetry, `checkClose, `fdsErase, `population
      reads population`callOnConnect, population`detach, population`retry, population`close
      reads population`timeoutStart, population`timeoutLimit
    {
      set p, w: Work | p in population && !Served(w, p) :: (w, p)
    }

    /** No flag is lowered, and no work is lost. */
    twostate predicate Raises()
      reads this, population
    {
      old(Raised()) <= Raised() && Lost() <= old(Lost())
    }

    /** Where a socket has a descriptor that the handler does not hold it under. */
    ghost function Astray(): set<int>
      requires Shape()
      reads `sockets, `fdsErase, `population, `add, `delete, population`fd
    {
      set k | k in sockets &&
        !(sockets[k].fd == k || sockets[k].fd == INVALID_SOCKET || sockets[k].uid in fdsErase)
    }

    /** What callbacks and setters keep. */
    twostate predicate Goes()
      reads this, population
    {
      Moves() && Raises() && old(Shape()) && Astray() <= old(Astray())
    }

    /** The descriptors of the sockets. */
    ghost function Fds(): map<Socket, int>
      reads `population, population`fd
    {
      map p | p in population :: p.fd
    }

    /** The work of the sockets. */
    ghost function Tasks(): map<Socket, set<Work>>
      reads `population, population`callOnConnect, population`detach, population`retry, population`close
      reads population`timeoutStart, population`timeoutLimit
    {
      map p | p in population :: (set w: Work | p.Pending(w))
    }

    /** The sockets that are to be called on connect, and the timeouts of all of them. */
    ghost function Connecting(): set<Socket>
      reads `population, population`callOnConnect
    {
      set p | p in population && p.callOnConnect
    }

    ghost function Timers(): map<Socket, (int, int)>
      reads `population, population`timeoutStart, population`timeoutLimit
    {
      map p | p in population :: (p.timeoutStart, p.timeoutLimit)
    }

    /** What is left of that when callbacks are gentle, but for the sockets `done`. */
    twostate predicate Keeps(done: set<Socket>)
      reads this, population
    {
      && Gentle(scripts) && old(Connecting()) - done <= Connecting()
      && Timers() - done == old(Timers()) - done
    }

    /** Work of a socket whose flag is down. */
    ghost function Unflagged(p: Socket): set<Work>
      requires p in population
      reads `checkCallOnConnect, `checkDetach, `checkTimeout, `checkRetry, `checkClose, `population
      reads population`callOnConnect, population`detach, population`retry, population`close
      reads population`timeoutStart, population`timeoutLimit
    {
      Tasks()[p] - Raised()
    }

    /** No callback interfered: all work is as it was, and `uids` were queued. */
    twostate predicate Quiet(uids: seq<nat>)
      reads this, population
    {
      && scripts == [] && Tasks() == old(Tasks()) && checkClose == old(checkClose)
      && fdsErase == old(fdsErase) + uids && SameBut(uids, Views(), old(Views()))
    }

    /** The same, but for whether the handler has deleted a socket. */
    ghost function Looks(): map<Socket, View>
      reads `population, population
    {
      map p | p in population :: p.Now().(erased := false)
    }

    lemma LooksIs()
      ensures Looks() == Masked(Views())
    {
    }

    /** What is to be seen of all sockets. */
    ghost function Views(): map<Socket, View>
      reads `population, population
    {
      map p | p in population :: p.Now()
    }

    /** Nothing but the check of `w` happened, and to `p` alone. */
    twostate predicate Handled(w: Work, p: Socket, now: int)
      reads this, population, p
    {
      && scripts == [] && (forall q :: q in population && q in old(population) && q != p ==> unchanged(q))
      && p.Now() == After(w, old(p.Now()), now, p.fd)
      && fdsErase == old(fdsErase) + if Leaves(w, old(p.Now()), now) then [p.uid] else []
    }

    /** A setter called by a callback. */
    method Set(p: Socket, deed: Deed, now: int)
      requires p.handler == this
      modifies p`callOnConnect, p`detach, p`retry, p`close, p`timeoutStart, p`timeoutLimit, p`closedAt, p`traits
      modifies `checkCallOnConnect, `checkDetach, `checkTimeout, `checkRetry, `checkClose
      ensures forall w :: old(Flag(w)) ==> Flag(w)
      ensures forall w :: old(Served(w, p)) ==> Served(w, p)
      ensures GentleDeed(deed) ==> (old(p.callOnConnect) ==> p.callOnConnect)
      ensures GentleDeed(deed) ==> p.timeoutStart == old(p.timeoutStart) && p.timeoutLimit == old(p.timeoutLimit)
    {
      match deed {
        case SetCallOnConnect(_, x) => p.SetCallOnConnect(x);
        case SetDetach(_, x) => p.SetDetach(x);
        case SetTimeout(_, secs) => p.SetTimeout(secs, now);
        case SetRetry(_, x) => p.SetRetryClientConnect(x);
        case SetClose(_, x) => p.SetCloseAndDelete(x, now);
        case SetTraits(_, traits) => p.traits := traits;
        case Add(_) =>
      }
    }

    /** One thing done by a callback. */
    method Do(deed: Deed, now: int)
      requires Shape()
      modifies population, `add, `checkCallOnConnect, `checkDetach, `checkTimeout, `checkRetry, `checkClose
      ensures Goes() && forall q :: q in population ==> q.fd == old(q.fd)
      ensures GentleDeed(deed) ==> old(Connecting()) <= Connecting() && Timers() == old(Timers())
    {
      if deed.who < |population| {
        var p := population[deed.who];
        if deed.Add? {
          add := add + [p];
        } else {
          hide Flag, Socket.Pending;
          Set(p, deed, now);
        }
      }
    }

    /** A call out to the user. */
    method RunCallback(now: int)
      requires Shape()
      modifies population, `add, `scripts
      modifies `checkCallOnConnect, `checkDetach, `checkTimeout, `checkRetry, `checkClose
      ensures Goes() && forall q :: q in population ==> q.fd == old(q.fd)
      ensures old(scripts) == [] ==> unchanged(this) && unchanged(population) && Views() == old(Views()) && Quiet([])
      ensures Fds() == old(Fds())
      ensures old(scripts) != [] ==> |scripts| < |old(scripts)|
      ensures Gentle(old(scripts)) ==> Gentle(scripts)
      ensures Gentle(old(scripts)) ==> old(Connecting()) <= Connecting() && Timers() == old(Timers())
    {
      hide Flag, Socket.Pending, Raised, Lost, Astray;
      if scripts == [] {
        return;
      }
      ghost var gentle := Gentle(scripts);
      var script := scripts[0];
      scripts := scripts[1..];
      for i := 0 to |script|
        invariant Goes() && (forall q :: q in population ==> q.fd == old(q.fd)) && scripts == old(scripts)[1..]
        invariant gentle ==> old(Connecting()) <= Connecting() && Timers() == old(Timers())
      {
        Do(script[i], now);
      }
      if gentle {
        GentleRest(old(scripts));
      }
    }

    /** One of the calls of the checks. */
    method Tell(ghost call: Call, now: int)
      requires Shape()
      modifies population, `add, `scripts, `calls
      modifies `checkCallOnConnect, `checkDetach, `checkTimeout, `checkRetry, `checkClose
      ensures Goes() && fdsErase == old(fdsErase) && calls == old(calls) + [call]
      ensures old(scripts) == [] ==> scripts == [] && forall q :: q in population ==> unchanged(q)
      ensures Gentle(old(scripts)) ==> Gentle(scripts)
      ensures Gentle(old(scripts)) ==> old(Connecting()) <= Connecting() && Timers() == old(Timers())
    {
      hide Raised, Lost, Shape, Astray, Gentle, Connecting, Timers, Quiet, Fds;
      calls := calls + [call];
      RunCallback(now);
    }

    /** DeleteSocket: the socket will leave the handler. */
    method DeleteSocket(p: Socket, now: int)
      requires Shape() && p in population
      modifies population, `add, `scripts, `fdsErase
      modifies `checkCallOnConnect, `checkDetach, `checkTimeout, `checkRetry, `checkClose
      ensures Goes() && fdsErase == old(fdsErase) + [p.uid] && Fds() == old(Fds())
      ensures forall q :: q in population ==> q.fd == old(q.fd)
      ensures old(scripts) == [] ==> add == old(add) && Raised() == old(Raised()) && Quiet([p.uid])
      ensures old(scripts) != [] ==> |scripts| < |old(scripts)|
      ensures old(scripts) == [] ==> p.Now() == old(p.Now()).(erased := old(p.erasedByHandler || p.deleteByHandler))
      ensures old(scripts) == [] ==> forall q :: q in population && q != p ==> unchanged(q)
    {
      hide Flag, Socket.Pending, Served, Fds, Tasks, Raised, Lost, Astray, Shape, Views, SameBut, Gentle;
      RunCallback(now);
      MarkErased(p);
      Queue(p);
    }

    /** SetErasedByHandler, once. */
    method MarkErased(p: Socket)
      requires p in population
      modifies p`erasedByHandler
      ensures p.Now() == old(p.Now()).(erased := old(p.erasedByHandler || p.deleteByHandler))
      ensures SameBut([p.uid], Views(), old(Views()))
    {
      if p.deleteByHandler && !p.erasedByHandler {
        p.erasedByHandler := true;
      }
    }

    /** m_fds_erase gets the uid of the socket. */
    method Queue(p: Socket)
      requires Shape()
      modifies `fdsErase
      ensures Goes() && fdsErase == old(fdsErase) + [p.uid]
    {
      hide Flag, Socket.Pending;
      fdsErase := fdsErase + [p.uid];
    }

    /** The setters of the handler. */
    method Raise(w: Work)
      requires Shape()
      modifies `checkCallOnConnect, `checkDetach, `checkTimeout, `checkRetry, `checkClose
      ensures Goes() && Flag(w)
    {
      match w {
        case CallOnConnect => checkCallOnConnect := true;
        case Detach => checkDetach := true;
        case Timeout => checkTimeout := true;
        case Retry => checkRetry := true;
        case Close => checkClose := true;
      }
    }

    method EndConnect(p: Socket)
      requires Shape() && p in population
      modifies p`callOnConnect, `checkCallOnConnect
      ensures Goes() && !p.callOnConnect && Connecting() == old(Connecting()) - {p}
    {
      p.SetCallOnConnect(false);
    }

    /** A socket has had its OnConnect. */
    method Connected(p: Socket)
      requires Shape() && p in population
      modifies p`callOnConnect, `checkCallOnConnect, `checkDetach, `checkTimeout, `checkRetry, `checkClose
      ensures Goes() && Flag(CallOnConnect) && Connecting() == old(Connecting()) - {p}
      ensures p.Now() == old(p.Now()).(callOnConnect := false)
    {
      hide Raised, Lost, Shape, Astray, Flag, Connecting;
      EndConnect(p);
      Raise(CallOnConnect);
    }

    method ChangeTimeout(p: Socket, secs: int, now: int)
      requires Shape() && p in population
      modifies p`timeoutStart, p`timeoutLimit, `checkTimeout
      ensures Goes() && p.timeoutStart == (if secs == 0 then 0 else now) && p.timeoutLimit == secs
      ensures Timers() - {p} == old(Timers()) - {p}
    {
      p.SetTimeout(secs, now);
    }

    method EndRetry(p: Socket)
      requires Shape() && p in population
      modifies p`retry, `checkRetry
      ensures Goes() && !p.retry
    {
      p.SetRetryClientConnect(false);
    }

    method EndClose(p: Socket, now: int)
      requires Shape() && p in population
      modifies p`close, p`closedAt, `checkClose
      ensures Goes() && !p.close && p.closedAt == old(p.closedAt)
    {
      p.SetCloseAndDelete(false, now);
    }

    method Add(p: Socket)
      requires Shape() && p in population
      modifies `add
      ensures Goes() && add == old(add) + [p]
    {
      add := add + [p];
    }

    /** The new descriptor of a socket, which is added anew and whose uid is queued. */
    method OpenSocket(p: Socket)
      requires Shape() && p in population
      modifies p`fd, `descriptors, `fdsErase, `add
      ensures Goes() && fdsErase == old(fdsErase) + [p.uid] && add == old(add) + [p]
      ensures !p.traits.address ==> p.fd == old(p.fd)
    {
      if p.traits.address {
        p.fd := if descriptors == [] then INVALID_SOCKET else descriptors[0];
        descriptors := if descriptors == [] then [] else descriptors[1..];
      }
      add := add + [p];
      fdsErase := fdsErase + [p.uid];
    }

    /** Socket::Close: the descriptor is gone. */
    method CloseSocket(p: Socket)
      requires Shape() && p in population
      modifies p`fd
      ensures Goes() && p.fd == INVALID_SOCKET && Fds() == old(Fds())[p := INVALID_SOCKET]
      ensures SameBut([p.uid], Views(), old(Views()))
    {
      p.fd := INVALID_SOCKET;
    }

    /** Close, and open again if the address of the peer is known; the socket leaves, to be added anew. */
    method Reopen(p: Socket, now: int)
      requires Shape() && p in population
      modifies population, `add, `scripts, `descriptors, `fdsErase
      modifies `checkCallOnConnect, `checkDetach, `checkTimeout, `checkRetry, `checkClose
      ensures Goes() && fdsErase == old(fdsErase) + [p.uid] && p in add
      ensures old(scripts) == [] ==> scripts == [] && forall q :: q in population && q != p ==> unchanged(q)
      ensures old(scripts) == [] ==>
        p.Now() == old(p.Now()).(fd := if p.traits.address then p.fd else INVALID_SOCKET)
    {
      hide Raised, Lost, Shape, Astray, Views, SameBut, Quiet, Gentle, Connecting, Timers, Fds;
      CloseSocket(p);
      RunCallback(now);
      OpenSocket(p);
    }

    /** What CheckCallOnConnect does for one socket. */
    method ConnectOne(p: Socket, now: int)
      requires Shape() && p in population && p.Pending(CallOnConnect)
      modifies population, `add, `scripts
      modifies `checkCallOnConnect, `checkDetach, `checkTimeout, `checkRetry, `checkClose
      modifies `calls
      ensures Goes() && Flag(CallOnConnect) && fdsErase == old(fdsErase)
      ensures old(scripts) == [] ==> Handled(CallOnConnect, p, now)
      ensures calls == old(calls) + [OnConnect(p.uid)]
      ensures Gentle(old(scripts)) ==> Keeps({p}) && Timers() == old(Timers())
    {
      hide Raised, Lost, Shape, Astray, Flag, Fds, Tasks, Gentle, Connecting, Timers, Quiet;
      p.traits := p.traits.(connected := true);
      Tell(OnConnect(p.uid), now);
      Connected(p);
    }

    /** What CheckTimeout does for one socket. */
    method TimeoutOne(p: Socket, now: int)
      requires Shape() && p in population
      modifies population, `add, `scripts
      modifies `checkCallOnConnect, `checkDetach, `checkTimeout, `checkRetry, `checkClose
      modifies `calls
      ensures Goes() && Flag(Timeout) && fdsErase == old(fdsErase)
      ensures old(p.Pending(Timeout) && scripts == []) ==> Handled(Timeout, p, now)
      ensures calls == old(calls) + if old(p.TimeoutOver(now)) then [p.TimedOut(old(p.traits.connecting))] else []
      ensures Gentle(old(scripts)) ==> Keeps({p})
    {
      hide Raised, Lost, Shape, Astray, Flag, Fds, Tasks, Gentle, Connecting, Timers;
      if p.TimeoutOver(now) {
        ExpireOne(p, now);
      }
      Raise(Timeout);
    }

    /** The callback of a timeout, which starts anew for a socket that is connecting. */
    method ExpireOne(p: Socket, now: int)
      requires Shape() && p in population
      modifies population, `add, `scripts
      modifies `checkCallOnConnect, `checkDetach, `checkTimeout, `checkRetry, `checkClose
      modifies `calls
      ensures Goes() && fdsErase == old(fdsErase)
      ensures old(p.Pending(Timeout) && p.TimeoutOver(now) && scripts == []) ==> Handled(Timeout, p, now)
      ensures calls == old(calls) + [p.TimedOut(old(p.traits.connecting))]
      ensures Gentle(old(scripts)) ==> Keeps({p})
    {
      hide Raised, Lost, Shape, Astray, Flag, Fds, Tasks, Gentle, Connecting, Timers, Quiet;
      ChangeTimeout(p, 0, now);
      if p.traits.connecting {
        ExpireConnecting(p, now);
      } else {
        Tell(OnTimeout(p.uid), now);
      }
    }

    /** A connection attempt has timed out: the timer starts anew. */
    method ExpireConnecting(p: Socket, now: int)
      requires Shape() && p in population
      modifies population, `add, `scripts, `calls
      modifies `checkCallOnConnect, `checkDetach, `checkTimeout, `checkRetry, `checkClose
      ensures Goes() && fdsErase == old(fdsErase) && calls == old(calls) + [OnConnectTimeout(p.uid)]
      ensures Gentle(old(scripts)) ==> Keeps({p})
      ensures old(scripts) == [] ==> scripts == [] && forall q :: q in population && q != p ==> unchanged(q)
      ensures old(scripts) == [] ==>
        var secs := p.traits.connectTimeout;
        p.Now() == old(p.Now()).(timeoutStart := if secs == 0 then 0 else now, timeoutLimit := secs)
    {
      hide Raised, Lost, Shape, Astray, Flag, Fds, Tasks, Gentle, Connecting, Timers, Quiet;
      Tell(OnConnectTimeout(p.uid), now);
      ChangeTimeout(p, p.traits.connectTimeout, now);
    }

    /** What CheckRetry does for one socket. */
    method RetryOne(p: Socket, now: int)
      requires Shape() && p in population && p.Pending(Retry)
      modifies population, `add, `scripts, `descriptors, `fdsErase
      modifies `checkCallOnConnect, `checkDetach, `checkTimeout, `checkRetry, `checkClose
      ensures Goes() && Flag(Retry) && p in add
      ensures old(scripts) == [] ==> Handled(Retry, p, now)
    {
      hide Raised, Lost, Shape, Astray, Flag, Fds, Tasks;
      EndRetry(p);
      Reopen(p, now);
      Raise(Retry);
    }

    /** A socket with data to flush: wait for it, shut down the sending side, then close. */
    method Linger(p: Socket, now: int)
      requires Shape() && p in population && p.close && Lingers(p.Now(), now)
      modifies population, `add, `scripts, `fdsErase
      modifies `checkCallOnConnect, `checkDetach, `checkTimeout, `checkRetry, `checkClose
      ensures Goes() && (old(scripts) == [] ==> Handled(Close, p, now))
    {
      hide Raised, Lost, Shape, Astray, Views, SameBut, Quiet, Fds, Tasks;
      if p.traits.outputLength == 0 {
        if !p.traits.shutWr {
          p.traits := p.traits.(shutWr := true);
        } else {
          CloseSocket(p);
          DeleteSocket(p, now);
        }
      }
    }

    method Reconnect(p: Socket, now: int)
      requires Shape() && p in population && p.close && Reconnects(p.Now(), now)
      modifies population, `add, `scripts, `fdsErase, `descriptors
      modifies `checkCallOnConnect, `checkDetach, `checkTimeout, `checkRetry, `checkClose
      ensures Goes() && p in add && (old(scripts) == [] ==> Handled(Close, p, now))
    {
      hide Raised, Lost, Shape, Astray, Views, SameBut, Quiet, Fds, Tasks;
      EndClose(p, now);
      p.traits := p.traits.(connected := false);
      Reopen(p, now);
    }

    /** What is left to CheckClose: keep the connection in the pool, or close it. */
    method CloseAtLast(p: Socket, now: int)
      requires Shape() && p in population && p.close
      requires !Lingers(p.Now(), now) && !Reconnects(p.Now(), now)
      requires p.traits.lost ==> p.traits.tcp && p.traits.reconnect
      modifies population, `add, `scripts, `fdsErase
      modifies `checkCallOnConnect, `checkDetach, `checkTimeout, `checkRetry, `checkClose
      ensures Goes() && (old(scripts) == [] ==> Handled(Close, p, now))
    {
      hide Raised, Lost, Shape, Astray, Views, SameBut, Quiet, Fds, Tasks;
      if p.traits.retain && !p.traits.lost {
        EndClose(p, now);
      } else {
        CloseSocket(p);
      }
      DeleteSocket(p, now);
    }

    /** What CheckClose does for one socket. */
    method CloseOne(p: Socket, now: int)
      requires Shape() && p in population && p.Pending(Close)
      modifies population, `add, `scripts, `fdsErase, `descriptors
      modifies `checkCallOnConnect, `checkDetach, `checkTimeout, `checkRetry, `checkClose
      ensures Goes() && Flag(Close) && (old(scripts) == [] ==> Handled(Close, p, now))
    {
      hide Raised, Lost, Shape, Astray, Flag, Fds, Tasks;
      if p.traits.lost && !(p.traits.tcp && p.traits.reconnect) {
        DeleteSocket(p, now);
      } else if p.traits.tcp && p.traits.connected && p.traits.flush && !p.traits.ssl && now - p.closedAt < 5 {
        Linger(p, now);
      } else if p.traits.tcp && p.traits.connected && p.traits.reconnect {
        Reconnect(p, now);
      } else {
        CloseAtLast(p, now);
      }
      Raise(Close);
    }

    /** None of the lost work is on a held socket, but for work `w` on those in `todo`. */
    ghost predicate ServedBut(w: Work, todo: set<int>, lost: set<(Work, Socket)>)
      reads `sockets
    {
      forall k, v :: k in sockets && (v != w || k !in todo) ==> (v, sockets[k]) !in lost
    }

    /** What is to be seen of the held sockets. */
    ghost function Held(): map<int, View>
      requires Shape()
      reads `sockets, `population, `add, `delete, population
    {
      map k | k in sockets :: sockets[k].Now()
    }

    /** A check begins by lowering its flag. */
    method Begin(w: Work)
      requires Shape() && NoLostWork()
      modifies `checkCallOnConnect, `checkDetach, `checkTimeout, `checkRetry, `checkClose
      ensures Shape() && ServedBut(w, sockets.Keys, Lost())
      ensures forall v :: Flag(v) <==> v != w && old(Flag(v))
    {
      match w {
        case CallOnConnect => checkCallOnConnect := false;
        case Detach => checkDetach := false;
        case Timeout => checkTimeout := false;
        case Retry => checkRetry := false;
        case Close => checkClose := false;
      }
      forall k, v | k in sockets && v != w
        ensures Served(v, sockets[k])
      {
        assert old(Served(v, sockets[k]));
      }
    }

    /** A check ends with no work lost. */
    lemma NoneLost(w: Work, todo: set<int>)
      requires Shape() && ServedBut(w, todo, Lost()) && forall k :: k !in todo
      ensures NoLostWork()
    {
      hide Flag, Socket.Pending;
      forall k, v | k in sockets
        ensures Served(v, sockets[k])
      {
        assert (v, sockets[k]) !in Lost();
      }
    }

    /** A socket without the work, or with its flag raised, has not lost it. */
    lemma NotLost(w: Work, p: Socket)
      requires Flag(w) || !p.Pending(w)
      ensures (w, p) !in Lost()
    {
    }

    /** One round of the loop of a check. */
    method Visit(w: Work, p: Socket, now: int)
      requires w != Detach && Shape() && p in population
      modifies population, `add, `scripts, `fdsErase, `descriptors
      modifies `checkCallOnConnect, `checkDetach, `checkTimeout, `checkRetry, `checkClose
      modifies `calls
      ensures Goes() && (Flag(w) || !p.Pending(w))
      ensures old(scripts) == [] ==> Handled(w, p, now)
      ensures calls == old(calls) + CallsFor(w, old(p.Now()), now)
      ensures Gentle(old(scripts)) && (w == CallOnConnect || w == Timeout) ==> Keeps({p})
      ensures Gentle(old(scripts)) && w == CallOnConnect ==> Timers() == old(Timers())
      ensures w == CallOnConnect || w == Timeout ==> fdsErase == old(fdsErase)
      ensures w == Retry && old(p.retry) ==> p in add
    {
      hide Raised, Lost, Shape, Astray, Flag, Fds, Tasks, Gentle, Connecting, Timers;
      if p.Pending(w) {
        if w == CallOnConnect {
          ConnectOne(p, now);
        } else if w == Timeout {
          TimeoutOne(p, now);
        } else if w == Retry {
          RetryOne(p, now);
        } else {
          CloseOne(p, now);
        }
      }
    }

    /** The same round, seen on the held sockets. */
    method VisitHeld(w: Work, k: int, now: int)
      requires w != Detach && Shape() && Settled() && k in sockets
      modifies population, `add, `scripts, `fdsErase, `descriptors
      modifies `checkCallOnConnect, `checkDetach, `checkTimeout, `checkRetry, `checkClose
      modifies `calls
      ensures Goes() && (Flag(w) || !sockets[k].Pending(w))
      ensures old(scripts) == [] ==> scripts == [] && Did(w, k, now, old(Held()), old(fdsErase), Held(), fdsErase)
      ensures calls == old(calls) + CallsFor(w, old(Held())[k], now)
      ensures Gentle(old(scripts)) && (w == CallOnConnect || w == Timeout) ==> Keeps({sockets[k]})
      ensures Gentle(old(scripts)) && w == CallOnConnect ==> Timers() == old(Timers())
      ensures w == CallOnConnect || w == Timeout ==> fdsErase == old(fdsErase)
      ensures w == Retry && old(sockets[k].retry) ==> sockets[k] in add
    {
      hide Flag, Socket.Pending, After, Leaves, Raised, Lost, Astray, CallsFor, Gentle, Timers, Connecting;
      var p := sockets[k];
      ghost var before := Held();
      Visit(w, p, now);
      if old(scripts) == [] {
        forall j | j in sockets && j != k
          ensures Held()[j] == before[j]
        {
          assert sockets[j] != p;
        }
        assert Held() == before[k := p.Now()];
      }
    }

    /** A round of a check keeps the invariant, and serves its socket. */
    method Round(w: Work, k: int, ghost todo: set<int>, now: int)
      requires w != Detach && Shape() && Settled() && Watched() && k in sockets && k !in todo
      requires ServedBut(w, todo + {k}, Lost())
      modifies population, `add, `scripts, `fdsErase, `descriptors
      modifies `checkCallOnConnect, `checkDetach, `checkTimeout, `checkRetry, `checkClose
      modifies `calls
      ensures Moves() && Settled() && Watched() && ServedBut(w, todo, Lost())
      ensures old(scripts) == [] ==> scripts == [] && Did(w, k, now, old(Held()), old(fdsErase), Held(), fdsErase)
      ensures calls == old(calls) + CallsFor(w, old(Held())[k], now)
      ensures Gentle(old(scripts)) && (w == CallOnConnect || w == Timeout) ==>
        Gentle(scripts) && old(Due(w, now)) - {k} <= Due(w, now)
      ensures Gentle(old(scripts)) && w == CallOnConnect ==> Timers() == old(Timers())
      ensures w == CallOnConnect || w == Timeout ==> fdsErase == old(fdsErase)
      ensures w == Retry && old(sockets[k].retry) ==> sockets[k] in add
    {
      hide Flag, Socket.Pending, Raised, Lost, Astray, Did, Held, CallsFor, Gentle, Connecting, Timers, Due;
      ghost var connecting, timers, gentle := Connecting(), Timers(), Gentle(scripts);
      if w == CallOnConnect || w == Timeout { DueIs(w, now); }
      VisitHeld(w, k, now);
      NotLost(w, sockets[k]);
      if gentle && (w == CallOnConnect || w == Timeout) {
        DueKept(w, now, k, connecting, timers);
      }
    }

    /** The held sockets that the check of some work would call. */
    ghost function Due(w: Work, now: int): set<int>
      requires Shape()
      reads `sockets, `population, `add, `delete, population
    {
      set k | k in sockets && CallsFor(w, sockets[k].Now(), now) != []
    }

    lemma DueIs(w: Work, now: int)
      requires Shape() && (w == CallOnConnect || w == Timeout)
      ensures Due(w, now) == DueOf(w, now, sockets, Connecting(), Timers())
    {
      forall k | k in sockets
        ensures k in Due(w, now) <==> k in DueOf(w, now, sockets, Connecting(), Timers())
      {
        var p := sockets[k];
        assert p in population && Timers()[p] == (p.timeoutStart, p.timeoutLimit);
      }
    }

    lemma DueKept(w: Work, now: int, k: int, connecting: set<Socket>, timers: map<Socket, (int, int)>)
      requires Shape() && Settled() && k in sockets && (w == CallOnConnect || w == Timeout)
      requires connecting - {sockets[k]} <= Connecting() && Timers() - {sockets[k]} == timers - {sockets[k]}
      ensures DueOf(w, now, sockets, connecting, timers) - {k} <= Due(w, now)
    {
      hide Due, Connecting, Timers, Astray;
      DueIs(w, now);
      forall j | j in DueOf(w, now, sockets, connecting, timers) - {k}
        ensures j in Due(w, now)
      {
        var p := sockets[j];
        assert p != sockets[k];
        if w == Timeout {
          assert p in timers - {sockets[k]} && p in Timers() - {sockets[k]};
          assert (timers - {sockets[k]})[p] == timers[p] && (Timers() - {sockets[k]})[p] == Timers()[p];
        }
      }
    }

    /** In the middle of a check; `quiet` if no callback interferes. */
    ghost predicate Midway(w: Work, todo: set<int>, now: int, quiet: bool, before: map<int, View>, queued: seq<nat>)
      reads this, population
    {
      && Shape() && Settled() && Watched() && ServedBut(w, todo, Lost())
      && (quiet ==> scripts == [] && Progress(w, todo, now, before, queued, Held(), fdsErase))
    }

    /** What the rounds of a check have called: `seen` is what they saw, `due` what was due at first. */
    ghost predicate Hears(w: Work, todo: set<int>, now: int, seen: map<int, View>, more: seq<Call>, due: set<int>,
                          gentle: bool)
      reads this, population
    {
      && Shape() && seen.Keys == sockets.Keys - todo
      && (forall k :: k in seen ==> seen[k].uid == sockets[k].uid)
      && Rings(w, now, seen, more)
      && (gentle ==>
            (Gentle(scripts) && due * todo <= Due(w, now)
             && forall k :: k in due && k in seen ==> CallsFor(w, seen[k], now) != []))
      && (w == Retry ==> forall k :: k in seen && seen[k].retry ==> sockets[k] in add)
    }

    lemma HearsOn(w: Work, k: int, todo: set<int>, now: int, seen: map<int, View>, more: seq<Call>, due: set<int>,
                  gentle: bool, v: View, dueThen: set<int>)
      requires Shape() && Settled() && k in sockets && k !in todo && v.uid == sockets[k].uid
      requires seen.Keys == sockets.Keys - (todo + {k}) && forall j :: j in seen ==> seen[j].uid == sockets[j].uid
      requires Rings(w, now, seen, more)
      requires gentle ==> Gentle(scripts) && due * (todo + {k}) <= dueThen && dueThen - {k} <= Due(w, now)
      requires gentle ==> (k in dueThen ==> CallsFor(w, v, now) != [])
      requires gentle ==> forall j :: j in due && j in seen ==> CallsFor(w, seen[j], now) != []
      requires w == Retry ==> forall j :: j in seen && seen[j].retry ==> sockets[j] in add
      requires w == Retry && v.retry ==> sockets[k] in add
      ensures Hears(w, todo, now, seen[k := v], more + CallsFor(w, v, now), due, gentle)
    {
      hide CallsFor, Rings, Due, Gentle, Astray;
      forall j | j in seen
        ensures seen[j].uid != v.uid
      {
        assert sockets[j] != sockets[k];
      }
      RingOn(w, now, seen, more, k, v);
    }

    /** A round, with what it adds to the calls. */
    method RoundHeard(w: Work, k: int, ghost todo: set<int>, now: int, ghost seen: map<int, View>,
                      ghost more: seq<Call>, ghost due: set<int>, ghost gentle: bool) returns (ghost v: View)
      requires w != Detach && Shape() && Settled() && Watched() && k in sockets && k !in todo
      requires ServedBut(w, todo + {k}, Lost()) && Hears(w, todo + {k}, now, seen, more, due, gentle)
      requires gentle ==> w == CallOnConnect || w == Timeout
      modifies population, `add, `scripts, `fdsErase, `descriptors, `calls
      modifies `checkCallOnConnect, `checkDetach, `checkTimeout, `checkRetry, `checkClose
      ensures Moves() && Settled() && Watched() && ServedBut(w, todo, Lost())
      ensures old(scripts) == [] ==> scripts == [] && Did(w, k, now, old(Held()), old(fdsErase), Held(), fdsErase)
      ensures v == old(sockets[k].Now()) && calls == old(calls) + CallsFor(w, v, now)
      ensures Hears(w, todo, now, seen[k := v], more + CallsFor(w, v, now), due, gentle)
      ensures gentle && w == CallOnConnect ==> Timers() == old(Timers())
      ensures w == CallOnConnect || w == Timeout ==> fdsErase == old(fdsErase)
    {
      hide Raised, Lost, Astray, Did, ServedBut, Rings, CallsFor, Gentle, Timers, Flag, Socket.Pending;
      v := sockets[k].Now();
      ghost var dueThen := Due(w, now);
      assert Held()[k] == v;
      hide Due, Held, Settled, Watched;
      Round(w, k, todo, now);
      HearsOn(w, k, todo, now, seen, more, due, gentle, v, dueThen);
    }

    /** In the middle of a check, with what it has called so far. */
    ghost predicate Onward(w: Work, todo: set<int>, now: int, at: Start, seen: map<int, View>, more: seq<Call>)
      reads this, population
    {
      && Midway(w, todo, now, at.quiet, at.views, at.queued)
      && Hears(w, todo, now, seen, more, at.due, at.gentle) && calls == at.calls + more
      && (at.gentle && w == CallOnConnect ==> Timers() == at.timers)
      && (at.quiet ==> SeenAs(seen, at.views))
      && (w == CallOnConnect || w == Timeout ==> fdsErase == at.queued)
      && Since(at.fields)
    }

    /** What changed since then only by appending to the queues. */
    ghost predicate Since(f: Fields)
      reads this
    {
      && population == f.population && sockets == f.sockets && delete == f.delete && maxsock == f.maxsock
      && f.add <= add && f.queued <= fdsErase && |scripts| <= f.scripts
    }

    ghost function Now(): Fields
      reads this
    {
      Fields(population, sockets, delete, maxsock, add, fdsErase, |scripts|)
    }

    method RoundOn(w: Work, k: int, ghost todo: set<int>, now: int, ghost at: Start,
                   ghost seen: map<int, View>, ghost more: seq<Call>)
      returns (ghost seen': map<int, View>, ghost more': seq<Call>)
      requires w != Detach && k in sockets && k !in todo && Onward(w, todo + {k}, now, at, seen, more)
      requires at.gentle ==> w == CallOnConnect || w == Timeout
      modifies population, `add, `scripts, `fdsErase, `descriptors, `calls
      modifies `checkCallOnConnect, `checkDetach, `checkTimeout, `checkRetry, `checkClose
      ensures Onward(w, todo, now, at, seen', more') && sockets == old(sockets)
    {
      hide Raised, Lost, Astray, Did, Progress, ServedBut, Hears, Timers, CallsFor, Due;
      ghost var middle, queuedThen := Held(), fdsErase;
      if at.quiet {
        UidsDiffer(w, todo + {k}, now, at.views, at.queued);
        SeenBefore(w, k, todo, now, at.views, at.queued, middle, queuedThen);
      }
      ghost var v := RoundHeard(w, k, todo, now, seen, more, at.due, at.gentle);
      seen', more' := seen[k := v], more + CallsFor(w, v, now);
      assert at.calls + more' == at.calls + more + CallsFor(w, v, now);
      if at.quiet {
        ProgressOn(w, k, todo, now, at.views, at.queued, middle, queuedThen, Held(), fdsErase);
      }
    }

    method BeginMidway(w: Work, ghost now: int)
      requires Valid()
      modifies `checkCallOnConnect, `checkDetach, `checkTimeout, `checkRetry, `checkClose
      ensures Moves() && Midway(w, sockets.Keys, now, scripts == [], old(Held()), old(fdsErase))
    {
      hide Raised, Lost, Astray, Progress, ServedBut;
      Begin(w);
      NoProgress(w, sockets.Keys, now, Held(), fdsErase);
    }

    lemma EndOfCheck(w: Work, todo: set<int>, now: int, quiet: bool, before: map<int, View>, queued: seq<nat>)
      requires Midway(w, todo, now, quiet, before, queued) && todo == {}
      ensures Valid() && (quiet ==> scripts == [] && Progress(w, {}, now, before, queued, Held(), fdsErase))
    {
      hide Lost, Astray, Progress, ServedBut;
      NoneLost(w, todo);
    }

    /** Held sockets have different uids, and a check does not change them. */
    lemma UidsDiffer(w: Work, todo: set<int>, now: int, before: map<int, View>, queued: seq<nat>)
      requires Shape() && Settled() && Progress(w, todo, now, before, queued, Held(), fdsErase)
      ensures forall i, j :: i in before && j in before && before[i].uid == before[j].uid ==> i == j
    {
      hide After, Leaves, Astray;
      forall i | i in before
        ensures before[i].uid == sockets[i].uid
      {
        assert Held()[i].uid == sockets[i].uid;
      }
    }

    /** CheckCallOnConnect, CheckTimeout, CheckRetry and CheckClose: lower the flag, do what each held
        socket needs, and raise the flag again on the way. Callbacks run in the middle of it. */
    method Check(w: Work, now: int) returns (ghost seen: map<int, View>, ghost more: seq<Call>)
      requires w != Detach && Valid()
      modifies population, `add, `scripts, `fdsErase, `descriptors, `calls
      modifies `checkCallOnConnect, `checkDetach, `checkTimeout, `checkRetry, `checkClose
      ensures Valid() && Moves()
      ensures old(scripts) == [] ==> scripts == [] && Progress(w, {}, now, old(Held()), old(fdsErase), Held(), fdsErase)
      ensures calls == old(calls) + more
      ensures Hears(w, {}, now, seen, more, old(Due(w, now)), MayBeGentle(w, old(scripts)))
      ensures MayBeGentle(w, old(scripts)) && w == CallOnConnect ==> Timers() == old(Timers())
      ensures old(scripts) == [] ==> seen == old(Held())
      ensures w == CallOnConnect || w == Timeout ==> fdsErase == old(fdsErase)
    {
      hide Midway, Shape, Valid, Progress, Hears, Timers, CallsFor, Due, Gentle, SeenAs, Held;
      ghost var at := Start(Held(), fdsErase, Due(w, now), scripts == [], MayBeGentle(w, scripts), calls, Timers(),
                               Now());
      HeldKeys();
      BeginMidway(w, now);
      BeginHears(w, now, at.due, at.gentle);
      NoneSeen(at.views);
      seen, more := Rounds(w, now, at);
      if at.quiet { AllSeen(w, now, seen, more, at.due, at.gentle, at.views); }
      EndOfCheck(w, {}, now, at.quiet, at.views, at.queued);
    }

    lemma HeldKeys()
      requires Shape()
      ensures Held().Keys == sockets.Keys
    {
    }

    /** The loop of a check. */
    method Rounds(w: Work, now: int, ghost at: Start) returns (ghost seen: map<int, View>, ghost more: seq<Call>)
      requires w != Detach && Onward(w, sockets.Keys, now, at, map[], [])
      requires at.gentle ==> w == CallOnConnect || w == Timeout
      modifies population, `add, `scripts, `fdsErase, `descriptors, `calls
      modifies `checkCallOnConnect, `checkDetach, `checkTimeout, `checkRetry, `checkClose
      ensures Onward(w, {}, now, at, seen, more)
    {
      hide Onward;
      seen, more := map[], [];
      var todo: set<int> := sockets.Keys;
      var next := Pick(todo);
      while next.Some?
        invariant if next.Some? then next.value in todo else todo == {}
        invariant todo <= sockets.Keys && Onward(w, todo, now, at, seen, more)
        decreases |todo|
      {
        var k := next.value;
        assert todo == todo - {k} + {k};
        todo := todo - {k};
        seen, more := RoundOn(w, k, todo, now, at, seen, more);
        next := Pick(todo);
      }
    }

    lemma BeginHears(w: Work, now: int, due: set<int>, gentle: bool)
      requires Shape() && due == Due(w, now) && (gentle ==> Gentle(scripts))
      ensures Hears(w, sockets.Keys, now, map[], [], due, gentle)
    {
      assert sockets.Keys - sockets.Keys == {};
    }

    lemma AllSeen(w: Work, now: int, seen: map<int, View>, more: seq<Call>, due: set<int>, gentle: bool,
                  before: map<int, View>)
      requires Hears(w, {}, now, seen, more, due, gentle)
      requires SeenAs(seen, before) && before.Keys == sockets.Keys
      ensures seen == before
    {
      assert seen.Keys == before.Keys;
      SameSeen(seen, before);
    }

    /** One socket to be detached, if there is one, leaves for a handler of its own. */
    method DetachOne() returns (ghost left: set<int>)
      requires Shape() && !checkDetach
      modifies `sockets, `checkDetach, population`detached
      ensures Shape() && sockets == old(sockets) - left && checkDetach == (left != {})
      ensures Astray() <= old(Astray())
      ensures forall k :: k in left ==> left == {k} && old(k in sockets)
      ensures forall k :: k in left ==> old(sockets)[k].detach && old(sockets)[k].detached
      ensures left == {} ==> forall k :: k in sockets ==> !sockets[k].detach
      ensures forall p, w :: p in population && w != Detach && old(Served(w, p)) ==> Served(w, p)
    {
      left := {};
      if k :| k in sockets && sockets[k].detach {
        left := {k};
        var p := sockets[k];
        sockets := sockets - {k};
        p.detached := true;
        checkDetach := true;
        assert k in left;
      }
    }

    /** The sockets still to be added keep the flag raised. */
    method KeepDetach()
      modifies `checkDetach
      ensures checkDetach <==> old(checkDetach) || exists p :: p in add && p.detach
      ensures forall p, w :: p in population && w != Detach && old(Served(w, p)) ==> Served(w, p)
    {
      var i := 0;
      while i < |add| && !checkDetach
        invariant i <= |add| && (old(checkDetach) ==> checkDetach)
        invariant checkDetach <==> old(checkDetach) || exists p :: p in add[..i] && p.detach
      {
        checkDetach := checkDetach || add[i].detach;
        i := i + 1;
      }
      assert i == |add| ==> add[..i] == add;
      forall p, w | p in population && w != Detach && old(Served(w, p))
        ensures Served(w, p)
      {
        assert Flag(w) == old(Flag(w)) && p.Pending(w) == old(p.Pending(w));
      }
    }

    method CheckDetach() returns (ghost left: set<int>)
      requires Valid()
      modifies `sockets, population`detached, `checkDetach
      ensures Valid() && sockets == old(sockets) - left
      ensures forall k :: k in left ==> left == {k} && old(k in sockets)
      ensures forall k :: k in left ==> old(sockets)[k].detach && old(sockets)[k].detached
      ensures left == {} ==> forall k :: k in sockets ==> !sockets[k].detach
      ensures checkDetach <==> left != {} || exists p :: p in add && p.detach
    {
      hide Socket.Pending, Astray, Flag, Served;
      LowerDetach();
      left := DetachOne();
      KeepDetach();
      DetachServed(left);
    }

    method LowerDetach()
      requires Shape() && NoLostWork()
      modifies `checkDetach
      ensures Shape() && !checkDetach
      ensures forall k, w :: k in sockets && w != Detach ==> Served(w, sockets[k])
    {
      hide Socket.Pending;
      checkDetach := false;
      forall k, w | k in sockets && w != Detach
        ensures Served(w, sockets[k])
      {
        assert old(Served(w, sockets[k])) && Flag(w) == old(Flag(w));
      }
    }

    lemma DetachServed(left: set<int>)
      requires left != {} ==> checkDetach
      requires left == {} ==> forall k :: k in sockets ==> !sockets[k].detach
      ensures forall k :: k in sockets ==> Served(Detach, sockets[k])
    {
    }

    /** One round of CheckErasedSockets: the socket with the first queued uid leaves. */
    method EraseFirst() returns (ghost freed: seq<Socket>)
      requires Shape() && fdsErase != []
      requires forall j, k :: j in sockets && k in sockets && sockets[j] == sockets[k] ==> j == k
      modifies `sockets, `fdsErase
      ensures Shape() && fdsErase == old(fdsErase)[1..]
      ensures sockets == Without(old(sockets), [old(fdsErase)[0]])
      ensures |freed| <= 1
      ensures forall p :: p in freed <==> Contains(old(sockets), p) && p.uid == old(fdsErase)[0] && Frees(p)
    {
      freed := [];
      var uid := fdsErase[0];
      fdsErase := fdsErase[1..];
      ghost var held := sockets;
      if k :| k in sockets && sockets[k].uid == uid {
        var p := sockets[k];
        if Frees(p) {
          freed := [p];
        }
        forall j | j in held && held[j].uid == uid
          ensures j == k
        {
          assert held[j] == held[k];
        }
        sockets := sockets - {k};
      }
      forall j
        ensures j in sockets <==> j in Without(held, [uid])
      {
      }
    }

    /** The handler deletes the sockets that are to be deleted by it, and in its own thread. */
    predicate Frees(p: Socket)
      reads p
    {
      p.erasedByHandler && p.detached == slave
    }

    /** Erase every socket that is queued. */
    method EraseQueued() returns (ghost freed: seq<Socket>)
      requires Shape()
      requires forall j, k :: j in sockets && k in sockets && sockets[j] == sockets[k] ==> j == k
      modifies `sockets, `fdsErase
      ensures Shape() && fdsErase == [] && sockets == Without(old(sockets), old(fdsErase))
      ensures Distinct(freed)
      ensures forall p :: p in freed <==> Contains(old(sockets), p) && p.uid in old(fdsErase) && Frees(p)
    {
      freed := [];
      ghost var done: seq<nat>, held := [], sockets;
      assert Without(held, []) == held;
      while fdsErase != []
        invariant Shape() && done + fdsErase == old(fdsErase) && sockets == Without(held, done)
        invariant Distinct(freed)
        invariant forall p :: p in freed <==> Contains(held, p) && p.uid in done && Frees(p)
        decreases |fdsErase|
      {
        ghost var uid := fdsErase[0];
        ghost var one := EraseFirst();
        WithoutOne(held, done, uid);
        DistinctJoin(freed, one);
        freed := freed + one;
        done := done + [uid];
      }
      assert done == old(fdsErase);
    }

    lemma WithoutOne(held: map<int, Socket>, done: seq<nat>, uid: nat)
      ensures Without(Without(held, done), [uid]) == Without(held, done + [uid])
      ensures forall p :: Contains(Without(held, done), p) <==> Contains(held, p) && p.uid !in done
    {
      forall p | Contains(held, p) && p.uid !in done
        ensures Contains(Without(held, done), p)
      {
        var k :| k in held && held[k] == p;
        assert Without(held, done)[k] == p;
      }
    }

    /** Erase every socket that is queued, and find the largest descriptor left. */
    method CheckErasedSockets() returns (ghost freed: seq<Socket>)
      requires Valid()
      modifies `sockets, `fdsErase, `maxsock
      ensures Valid() && fdsErase == [] && sockets == Without(old(sockets), old(fdsErase))
      ensures if old(fdsErase) == [] then maxsock == old(maxsock) else Largest(maxsock, sockets.Keys)
      ensures Distinct(freed)
      ensures forall p :: p in freed <==> Contains(old(sockets), p) && p.uid in old(fdsErase) && Frees(p)
    {
      hide Flag, Socket.Pending;
      var checkMax := fdsErase != [];
      freed := EraseQueued();
      if checkMax {
        FindLargest();
      }
      forall k, w | k in sockets
        ensures Served(w, sockets[k])
      {
        assert old(Served(w, sockets[k]));
      }
    }

    method FindLargest()
      modifies `maxsock
      ensures Largest(maxsock, sockets.Keys)
    {
      maxsock := 0;
      var todo: set<int> := sockets.Keys;
      var next := Pick(todo);
      while next.Some?
        invariant if next.Some? then next.value in todo else todo == {}
        invariant todo <= sockets.Keys && maxsock >= 0 && (maxsock == 0 || maxsock in sockets)
        invariant forall j :: j in sockets ==> j <= maxsock || j in todo
        decreases |todo|
      {
        var k := next.value;
        maxsock := if k > maxsock then k else maxsock;
        todo := todo - {k};
        next := Pick(todo);
      }
    }

    /** Held sockets still have their descriptor, or none. */
    ghost predicate Plain()
      requires Shape()
      reads `sockets, `population, `add, `delete, population`fd
    {
      forall k :: k in sockets ==> sockets[k].fd == k || sockets[k].fd == INVALID_SOCKET
    }

    /** A closing socket is queued and closed. */
    method QueueClosing(p: Socket, now: int)
      requires Shape() && p in population
      modifies population, `add, `scripts, `fdsErase
      modifies `checkCallOnConnect, `checkDetach, `checkTimeout, `checkRetry, `checkClose
      ensures Goes() && fdsErase == old(fdsErase) + [p.uid]
      ensures |scripts| < |old(scripts)| || (scripts == old(scripts) && add == old(add))
      ensures p.fd == INVALID_SOCKET && Fds() == old(Fds())[p := INVALID_SOCKET]
      ensures forall q :: q in population && q != p ==> q.fd == old(q.fd)
      ensures old(scripts) == [] ==> Quiet([p.uid]) && Unflagged(p) == old(Unflagged(p))
    {
      hide Flag, Socket.Pending, Fds, Tasks, Raised, Views, SameBut, Connecting, Timers, Shape, Lost, Astray;
      ghost var views := Views();
      DeleteSocket(p, now);
      ghost var middle := Views();
      CloseSocket(p);
      if scripts == [] { SameButTwice(p.uid, views, middle, Views()); }
    }

    /** A closing socket comes in only to be queued. */
    method InsertClosing(p: Socket, now: int)
      requires Valid() && Plain() && p in population && p.fd != INVALID_SOCKET
      modifies population, `add, `scripts, `fdsErase, `sockets
      modifies `checkCallOnConnect, `checkDetach, `checkTimeout, `checkRetry, `checkClose
      ensures Valid() && Plain() && sockets == old(sockets)[old(p.fd) := p] && delete == old(delete)
      ensures population == old(population) && old(add) <= add
      ensures |scripts| < |old(scripts)| || (scripts == old(scripts) && add == old(add))
      ensures p.uid in fdsErase && Fds() == old(Fds())[p := INVALID_SOCKET]
      ensures old(scripts) == [] ==> Quiet([p.uid]) && Unflagged(p) == old(Unflagged(p))
    {
      hide Flag, Socket.Pending, Fds, Tasks, Raised, Views, SameBut, Unflagged;
      var s := p.fd;
      ghost var held := sockets;
      sockets := sockets[s := p];
      label entered:
      QueueClosing(p, now);
      forall k, w | k in sockets
        ensures Served(w, sockets[k])
      {
        if k != s {
          assert old(Served(w, held[k]));
          assert (w, held[k]) !in old@entered(Lost());
        }
      }
    }

    method RaiseFor(p: Socket)
      requires !p.close && p in population
      modifies `checkCallOnConnect, `checkDetach, `checkTimeout, `checkRetry
      ensures forall w :: Flag(w) <==> old(Flag(w)) || p.Pending(w)
      ensures Unflagged(p) == {}
    {
      checkCallOnConnect := checkCallOnConnect || p.callOnConnect;
      checkDetach := checkDetach || p.detach;
      checkTimeout := checkTimeout || p.Pending(Timeout);
      checkRetry := checkRetry || p.retry;
    }

    /** The work of another socket raises the flags. */
    method InsertOpen(p: Socket)
      requires Valid() && Plain() && p in population && p.fd != INVALID_SOCKET && !p.close
      modifies `sockets, `maxsock, `checkCallOnConnect, `checkDetach, `checkTimeout, `checkRetry
      ensures Valid() && Plain() && sockets == old(sockets)[p.fd := p]
      ensures Unflagged(p) == {}
    {
      hide Flag, Socket.Pending, Unflagged, Settled, Plain;
      var s := p.fd;
      ghost var held := sockets;
      HeldWell();
      RaiseFor(p);
      maxsock := if s > maxsock then s else maxsock;
      sockets := sockets[s := p];
      forall k, w | k in sockets
        ensures Served(w, sockets[k])
      {
        if k != s {
          assert old(Served(w, held[k]));
        }
      }
      EntersSettled(held, p);
    }

    /** A socket that comes in under the descriptor it has leaves things settled. */
    lemma EntersSettled(held: map<int, Socket>, p: Socket)
      requires Shape() && p in population && p.fd != INVALID_SOCKET
      requires HeldUnder(held, Fds()) && sockets == held[p.fd := p]
      ensures Settled() && Plain()
    {
      assert forall k :: k in held ==> held[k].fd == Fds()[held[k]];
    }

    method DeleteHeld(p: Socket, now: int)
      requires Valid() && Plain() && p in population
      modifies population, `add, `scripts, `fdsErase
      modifies `checkCallOnConnect, `checkDetach, `checkTimeout, `checkRetry, `checkClose
      ensures Valid() && Plain() && sockets == old(sockets) && delete == old(delete) && old(add) <= add
      ensures population == old(population) && p.fd == old(p.fd)
      ensures forall q :: q in population ==> q.fd == old(q.fd)
      ensures Fds() == old(Fds()) && (old(scripts) == [] ==> Quiet([p.uid]))
      ensures old(scripts) == [] ==> forall q :: q in population ==> Unflagged(q) == old(Unflagged(q))
      ensures old(scripts) == [] ==> forall q :: q in population ==> q.close == old(q.close)
      ensures |scripts| < |old(scripts)| || (|scripts| == |old(scripts)| && add == old(add))
    {
      hide Flag, Socket.Pending;
      DeleteSocket(p, now);
      forall k, w | k in sockets
        ensures Served(w, sockets[k])
      {
        assert old(Served(w, sockets[k]));
        assert (w, sockets[k]) !in old(Lost());
      }
    }

    method Refuse(p: Socket)
      requires Valid() && Plain() && p in population
      modifies `delete
      ensures Valid() && Plain() && delete == old(delete) + [p]
    {
      delete := delete + [p];
    }

    method DropFirst()
      requires Valid() && Plain() && add != []
      modifies `add
      ensures Valid() && Plain() && add == old(add)[1..]
    {
      add := add[1..];
    }

    method Insert(p: Socket, now: int)
      requires Valid() && Plain() && p in population && p.fd != INVALID_SOCKET
      modifies population, `add, `scripts, `fdsErase, `sockets, `maxsock
      modifies `checkCallOnConnect, `checkDetach, `checkTimeout, `checkRetry, `checkClose
      ensures Valid() && Plain() && sockets == old(sockets)[old(p.fd) := p] && delete == old(delete)
      ensures population == old(population) && old(add) <= add
      ensures |scripts| < |old(scripts)| || (|scripts| == |old(scripts)| && add == old(add))
      ensures Fds() == if old(p.close) then old(Fds())[p := INVALID_SOCKET] else old(Fds())
      ensures old(scripts) == [] ==> Quiet(if old(p.close) then [p.uid] else [])
      ensures old(scripts) == [] ==> Unflagged(p) == if old(p.close) then old(Unflagged(p)) else {}
    {
      hide Valid, Plain, Unflagged, Tasks, Fds;
      if p.close {
        InsertClosing(p, now);
      } else {
        InsertOpen(p);
      }
    }

    /** A newer socket takes the place of the one that has its descriptor. */
    method Replace(p: Socket, found: Socket, now: int)
      requires Valid() && Plain() && p in population && p.fd != INVALID_SOCKET
      requires p.fd in sockets && sockets[p.fd] == found && found.uid < p.uid
      modifies population, `add, `scripts, `fdsErase, `sockets, `maxsock
      modifies `checkCallOnConnect, `checkDetach, `checkTimeout, `checkRetry, `checkClose
      ensures Valid() && Plain() && sockets == old(sockets)[old(p.fd) := p] && delete == old(delete)
      ensures population == old(population) && old(add) <= add
      ensures |scripts| < |old(scripts)| || (|scripts| == |old(scripts)| && add == old(add))
      ensures Fds() == old(Fds()) || Fds() == old(Fds())[p := INVALID_SOCKET]
      ensures old(scripts) == [] ==> Quiet([found.uid] + if old(p.close) then [p.uid] else [])
      ensures old(scripts) == [] ==> Unflagged(p) == if old(p.close) then old(Unflagged(p)) else {}
    {
      hide Valid, Plain, Tasks, Fds, Unflagged, Views, SameBut, Moves, Goes;
      ghost var views := Views();
      DeleteHeld(found, now);
      ghost var middle := Views();
      Insert(p, now);
      if scripts == [] {
        SameButOn([found.uid], [], views, middle, Views());
        SameButOn([found.uid], [p.uid], views, middle, Views());
      }
    }

    /** A socket comes in, for a descriptor that is free or held by an older one. */
    method Enter(p: Socket, now: int)
      requires Valid() && Plain() && p in population && p.fd != INVALID_SOCKET
      requires p.fd in sockets ==> sockets[p.fd].uid < p.uid
      modifies population, `add, `scripts, `fdsErase, `sockets, `maxsock
      modifies `checkCallOnConnect, `checkDetach, `checkTimeout, `checkRetry, `checkClose
      ensures Valid() && Plain() && population == old(population)
      ensures sockets == old(sockets)[old(p.fd) := p] && delete == old(delete) && old(add) <= add
      ensures |scripts| < |old(scripts)| || (|scripts| == |old(scripts)| && add == old(add))
      ensures Fds() == old(Fds()) || Fds() == old(Fds())[p := INVALID_SOCKET]
      ensures old(scripts) == [] ==> Quiet(Queues(old(sockets), Entry(old(p.fd), p), old(p.close)))
      ensures old(scripts) == [] ==> Unflagged(p) == if old(p.close) then old(Unflagged(p)) else {}
    {
      hide Valid, Plain, Tasks, Fds, Queues, Unflagged, Raised, Lost, Views, SameBut, Newest, Refused, FdsAfter;
      NewestCases(sockets, Entry(p.fd, p), p.close, Fds());
      if p.fd in sockets {
        Replace(p, sockets[p.fd], now);
      } else {
        Insert(p, now);
      }
    }

    /** One round of AddIncoming: the first socket to be added is held, or is to be deleted. */
    method AddFirst(now: int) returns (ghost entry: Entry)
      requires Valid() && Plain() && add != []
      modifies population, `add, `delete, `scripts, `fdsErase, `sockets, `maxsock
      modifies `checkCallOnConnect, `checkDetach, `checkTimeout, `checkRetry, `checkClose
      ensures Valid() && Plain() && population == old(population)
      ensures entry == Entry(old(add[0].fd), old(add[0])) && old(add)[1..] <= add
      ensures sockets == Newest(old(sockets), entry)
      ensures delete == old(delete) + if Refused(old(sockets), entry) then [entry.p] else []
      ensures |scripts| < |old(scripts)| || (|scripts| == |old(scripts)| && add == old(add)[1..])
      ensures FdsAfter(old(Fds()), Fds(), sockets, entry)
      ensures old(scripts) == [] ==> Quiet(Queues(old(sockets), entry, old(add[0].close)))
      ensures old(scripts) == [] && sockets != old(sockets) ==>
        Unflagged(entry.p) == if old(add[0].close) then old(Unflagged(add[0])) else {}
    {
      hide Valid, Plain, Tasks, Fds, Newest, Refused, Queues, FdsAfter, Unflagged, Raised, Flag, Socket.Pending, Lost;
      hide Views, SameBut;
      var p := add[0];
      entry := Entry(p.fd, p);
      NewestCases(sockets, entry, p.close, Fds());
      SameButNone(Views());
      if p.fd == INVALID_SOCKET {
        Refuse(p);
      } else if p.fd in sockets && p.uid <= sockets[p.fd].uid {
        if p != sockets[p.fd] {
          Refuse(p);
        }
      } else {
        Enter(p, now);
      }
      DropFirst();
    }

    lemma HeldWell()
      requires Valid() && Plain()
      ensures HeldUnder(sockets, Fds()) && Tasks().Keys == Fds().Keys
      ensures forall p :: p in add ==> p in Fds() && Fds()[p] == p.fd && (Close in Tasks()[p] <==> p.close)
    {
      hide NoLostWork, Watched, Astray;
    }

    /** Nothing has interfered with AddIncoming since the work was `tasks`. */
    ghost predicate Calm(at: Before)
      reads this, population
    {
      && scripts == [] && Tasks() == at.tasks && checkClose == at.checked
      && OnlyClosingQueued(sockets, fdsErase, Fds(), at.tasks)
      && SameBut(fdsErase, Views(), at.views) && Unmoved(at.sockets, sockets, fdsErase)
    }

    ghost predicate CalmWork(tasks: map<Socket, set<Work>>, checked: bool)
      reads this, population
    {
      Tasks() == tasks && checkClose == checked && OnlyClosingQueued(sockets, fdsErase, Fds(), tasks)
    }

    /** What there is before AddIncoming. */
    ghost function AsItIs(): Before
      reads this, population
    {
      Before(Tasks(), checkClose, Views(), sockets)
    }

    lemma CalmAtRest()
      requires Valid() && Plain() && scripts == [] && fdsErase == []
      ensures Calm(AsItIs())
    {
      HeldWell();
    }

    /** A round of AddIncoming, told by the descriptors that the sockets had at first. */
    method TakeFirst(now: int, ghost fds: map<Socket, int>, ghost at: Before)
      returns (ghost entry: Entry)
      requires Valid() && Plain() && add != [] && Traced(sockets, fds, Fds())
      modifies population, `add, `delete, `scripts, `fdsErase, `sockets, `maxsock
      modifies `checkCallOnConnect, `checkDetach, `checkTimeout, `checkRetry, `checkClose
      ensures Valid() && Plain() && population == old(population) && old(add)[1..] <= add
      ensures old(add[0]) in fds && entry == Entry(fds[old(add[0])], old(add[0]))
      ensures sockets == Newest(old(sockets), entry) && Traced(sockets, fds, Fds())
      ensures |scripts| < |old(scripts)| || (|scripts| == |old(scripts)| && add == old(add)[1..])
      ensures old(Calm(at)) ==> Calm(at)
    {
      hide Valid, Plain, Newest, Refused, FdsAfter, Queues, Tasks, Fds, Traced, OnlyClosingQueued, HeldUnder;
      hide Views, Unmoved, SameBut, Unflagged;
      HeldWell();
      ghost var now_, held, queued, calm, views := Fds(), sockets, fdsErase, Calm(at), Views();
      ghost var one := AddFirst(now);
      TracedOn(held, fds, now_, Fds(), one);
      entry := Entry(fds[one.p], one.p);
      if calm {
        OnlyClosingQueuedOn(held, queued, now_, at.tasks, one, Fds());
        UnmovedOn(at.sockets, held, queued, now_, one, Close in at.tasks[one.p]);
        SameButOn(queued, Queues(held, one, Close in at.tasks[one.p]), at.views, views, Views());
      }
    }

    /** Take in the sockets to be added, as long as there is room. */
    method AddIncoming(now: int) returns (ghost taken: seq<Entry>)
      requires Valid() && Plain()
      modifies population, `add, `delete, `scripts, `fdsErase, `sockets, `maxsock
      modifies `checkCallOnConnect, `checkDetach, `checkTimeout, `checkRetry, `checkClose
      ensures Valid() && Plain() && population == old(population)
      ensures |sockets| <= maxCount || |sockets| <= |old(sockets)|
      ensures add == [] || |sockets| >= maxCount
      ensures NewestHold(old(sockets), taken, sockets) && HadThese(old(Fds()), taken)
      ensures exists more :: old(add) + more == Sockets(taken) + add
      ensures old(scripts) == [] && old(fdsErase) == [] ==>
        && sockets == Entered(old(sockets), Entries(old(add), old(Fds())), maxCount)
        && Calm(old(AsItIs()))
    {
      hide Valid, Plain, Newest, Refused, NewestHold, Fds, AsItIs, Calm, Traced, Entries, Entered;
      taken := [];
      ghost var fds, at, calm := Fds(), AsItIs(), scripts == [] && fdsErase == [];
      ghost var more: seq<Socket>, all, start := [], add, sockets;
      NewestNone(sockets);
      TracedNone(sockets, fds);
      if calm { CalmAtRest(); }
      assert all + more == Sockets(taken) + add;
      while add != [] && |sockets| < maxCount
        invariant Valid() && Plain() && population == old(population)
        invariant |sockets| <= maxCount || |sockets| <= |start|
        invariant NewestHold(start, taken, sockets) && Traced(sockets, fds, Fds()) && HadThese(fds, taken)
        invariant all + more == Sockets(taken) + add
        invariant calm ==> Calm(at) && more == []
        invariant calm ==> Entered(start, Entries(all, fds), maxCount) == Entered(sockets, Entries(add, fds), maxCount)
        decreases |scripts|, |add|
      {
        ghost var held, adding := sockets, add;
        ghost var entry := TakeFirst(now, fds, at);
        NewestOne(start, taken, held, entry);
        SocketsOne(taken, entry);
        EnteredOne(held, adding, fds, maxCount, entry);
        ShiftedMore(all, more, Sockets(taken), adding, add);
        more := more + add[|adding| - 1..];
        taken := taken + [entry];
      }
      EnteredDone(sockets, Entries(add, fds), maxCount);
    }

    constructor (slave: bool, maxCount: nat, scripts: seq<seq<Deed>>, descriptors: seq<int>)
      ensures Valid() && sockets == map[] && add == [] && delete == [] && fdsErase == [] && population == []
      ensures this.slave == slave && this.maxCount == maxCount && this.scripts == scripts && forall w :: !Flag(w)
    {
      this.slave, this.maxCount, this.scripts, this.descriptors := slave, maxCount, scripts, descriptors;
      sockets, add, delete, fdsErase, maxsock, population := map[], [], [], [], 0, [];
      checkCallOnConnect, checkDetach, checkTimeout, checkRetry, checkClose := false, false, false, false, false;
    }

    lemma EmptyIsValid()
      requires Shape() && sockets == map[]
      ensures Valid() && Plain() && NoLostWork()
    {
    }

    /** A call out to the user while nothing else goes on. */
    method Notify(now: int)
      requires Valid()
      modifies population, `add, `scripts
      modifies `checkCallOnConnect, `checkDetach, `checkTimeout, `checkRetry, `checkClose
      ensures Valid() && Moves() && fdsErase == old(fdsErase)
      ensures old(scripts) == [] ==> scripts == [] && add == old(add) && Views() == old(Views())
      ensures Gentle(old(scripts)) ==> Gentle(scripts)
      ensures Gentle(old(scripts)) ==> old(Connecting()) <= Connecting() && Timers() == old(Timers())
    {
      hide Flag, Socket.Pending, Views, Gentle, Connecting, Timers;
      RunCallback(now);
      forall k, w | k in sockets
        ensures Served(w, sockets[k])
      {
        assert old(Served(w, sockets[k]));
        assert (w, sockets[k]) !in old(Lost());
      }
    }

    /** The sockets that were turned away. */
    method DeleteFirst(now: int)
      requires Valid() && delete != []
      modifies population, `add, `scripts, `delete
      modifies `checkCallOnConnect, `checkDetach, `checkTimeout, `checkRetry, `checkClose
      ensures Valid() && fdsErase == old(fdsErase) && delete == old(delete)[1..] && sockets == old(sockets)
      ensures population == old(population)
      ensures old(scripts) == [] ==> scripts == [] && add == old(add) && Looks() == old(Looks())
    {
      hide Gentle, Connecting, Timers, Looks, Views;
      var p := delete[0];
      assert p in delete && p in population;
      LooksIs();
      Notify(now);
      LooksIs();
      MarkDeleted(p);
    }

    method MarkDeleted(p: Socket)
      requires Valid() && delete != [] && p in population
      modifies `delete, p`erasedByHandler
      ensures Valid() && delete == old(delete)[1..] && Looks() == old(Looks())
    {
      hide Looks;
      delete := delete[1..];
      if p.deleteByHandler && p.detached == slave {
        SetErased(p);
      }
    }

    method SetErased(p: Socket)
      modifies p`erasedByHandler
      ensures p.erasedByHandler && Looks() == old(Looks())
    {
      p.erasedByHandler := true;
    }

    /** With nothing queued, every held socket has its descriptor or none. */
    lemma PlainAtRest()
      requires Valid() && fdsErase == []
      ensures Plain()
    {
      forall k | k in sockets
        ensures sockets[k].fd == k || sockets[k].fd == INVALID_SOCKET
      {
        assert k !in Astray();
      }
    }

    /** With its flag down a check would find nothing, but on sockets that are queued. */
    lemma IdleCheck(w: Work, now: int)
      requires Valid() && !Flag(w) && w != Detach
      ensures Stepped(w, now, Held(), fdsErase, Held(), fdsErase)
      ensures CalledFor(w, now, Held(), fdsErase, [], true, true)
      ensures forall k :: k in sockets && sockets[k].uid !in fdsErase ==> !sockets[k].Pending(w)
    {
      hide Settled, Watched, Lost, Astray;
      forall k | k in sockets && sockets[k].uid !in fdsErase
        ensures !sockets[k].Pending(w)
      {
        assert Served(w, sockets[k]);
      }
    }

    /** One of the checks, if its flag is up. */
    method CheckIf(w: Work, now: int) returns (ghost more: seq<Call>)
      requires w != Detach && Valid()
      modifies population, `add, `scripts, `fdsErase, `descriptors, `calls
      modifies `checkCallOnConnect, `checkDetach, `checkTimeout, `checkRetry, `checkClose
      ensures Valid() && Moves() && calls == old(calls) + more
      ensures old(scripts) == [] ==> scripts == [] && Stepped(w, now, old(Held()), old(fdsErase), Held(), fdsErase)
      ensures CalledFor(w, now, old(Held()), old(fdsErase), more, old(scripts) == [], MayBeGentle(w, old(scripts)))
      ensures w == CallOnConnect || w == Timeout || more == []
      ensures MayBeGentle(w, old(scripts)) ==> Gentle(scripts)
      ensures MayBeGentle(w, old(scripts)) && w == CallOnConnect ==> Timers() == old(Timers())
      ensures w == CallOnConnect || w == Timeout ==> fdsErase == old(fdsErase)
      ensures old(scripts) == [] && w == Retry ==>
        forall k :: k in sockets && old(sockets[k].retry && sockets[k].uid !in fdsErase) ==> sockets[k] in add
    {
      hide Valid, Progress, Stepped, CalledFor, Hears, Due, Timers, Rings, Gentle, Served, Raised, Lost, Astray;
      more := [];
      if Flag(w) {
        hide Flag;
        ghost var views, queued, due, scripts' := Held(), fdsErase, Due(w, now), scripts;
        HeldKeys();
        DueViews(w, now);
        ghost var seen;
        seen, more := Check(w, now);
        HeardIs(w, now, seen, more, due, views, queued, scripts' == [], MayBeGentle(w, scripts'));
        if scripts' == [] { ProgressSteps(w, now, views, queued, Held(), fdsErase); }
      } else {
        IdleCheck(w, now);
        IdleCalled(w, now, Held(), fdsErase, scripts == [], MayBeGentle(w, scripts));
        assert calls == calls + [];
      }
    }

    lemma DueViews(w: Work, now: int)
      requires Shape()
      ensures Due(w, now) == set k | k in Held() && CallsFor(w, Held()[k], now) != []
    {
    }

    lemma HeardIs(w: Work, now: int, seen: map<int, View>, more: seq<Call>, due: set<int>, views: map<int, View>,
                  queued: seq<nat>, quiet: bool, gentle: bool)
      requires Hears(w, {}, now, seen, more, due, gentle) && views.Keys == sockets.Keys
      requires due == set k | k in views && CallsFor(w, views[k], now) != []
      requires forall k :: k in views ==> views[k].uid == sockets[k].uid
      requires quiet ==> seen == views
      ensures CalledFor(w, now, views, queued, more, quiet, gentle) && (gentle ==> Gentle(scripts))
      ensures w == CallOnConnect || w == Timeout || more == []
      ensures quiet && w == Retry ==> forall k :: k in views && views[k].retry ==> sockets[k] in add
    {
      hide Gentle, Due;
      assert sockets.Keys - {} == sockets.Keys;
      forall c | c in more
        ensures (c.OnConnect? <==> w == CallOnConnect) && (w == CallOnConnect || w == Timeout)
      {
        var k :| k in seen && seen[k].uid == c.uid;
        assert c in CallsFor(w, seen[k], now);
      }
      assert more != [] ==> more[0] in more;
      if gentle {
        forall k | k in views && CallsFor(w, views[k], now) != []
          ensures Names(more, views[k].uid)
        {
          assert k in due && k in seen && CallsFor(w, seen[k], now) != [];
          var c := CallsFor(w, seen[k], now)[0];
          assert c in CallsFor(w, seen[k], now) && c.uid == seen[k].uid && c in more;
        }
      }
    }

    /** CheckDetach, if its flag is up, in the master handler. */
    method DetachIf() returns (ghost left: set<int>)
      requires Valid()
      modifies `sockets, population`detached, `checkDetach
      ensures Valid() && sockets == old(sockets) - left && Timers() == old(Timers())
      ensures forall k :: k in left ==> left == {k} && old(k in sockets && sockets[k].detach)
      ensures left == {} && !slave ==> forall k :: k in sockets && sockets[k].uid !in fdsErase ==> !sockets[k].detach
      ensures slave ==> left == {}
      ensures Held() == old(Held()) - left
    {
      hide Valid, Settled, Watched, Lost, Astray, Raised;
      left := {};
      if !slave && checkDetach {
        ghost var views := Held();
        left := CheckDetach();
        HeldKeys();
        forall k | k in sockets
          ensures Held()[k] == views[k]
        {
          assert sockets[k].Now() == old(sockets[k].Now());
        }
        assert Held() == views - left;
      } else {
        if !slave { NoneToDetach(); }
        assert sockets == sockets - {} && Held() == Held() - {};
      }
    }

    lemma NoneToDetach()
      requires Valid() && !checkDetach
      ensures forall k :: k in sockets && sockets[k].uid !in fdsErase ==> !sockets[k].detach
    {
      hide Settled, Watched;
      forall k | k in sockets && sockets[k].uid !in fdsErase
        ensures !sockets[k].detach
      {
        assert Served(Detach, sockets[k]);
      }
    }

    lemma TimersHeld()
      requires Shape()
      ensures Held().Keys == sockets.Keys && forall k :: k in sockets ==>
        && Held()[k].uid == sockets[k].uid && sockets[k] in Timers()
        && Held()[k].detach == sockets[k].detach && Held()[k].retry == sockets[k].retry
        && Timers()[sockets[k]] == (Held()[k].timeoutStart, Held()[k].timeoutLimit)
    {
    }

    /** The checks that call the user; `left` is where a socket was detached in between. */
    method CallingChecks(now: int, last: int) returns (ghost left: set<int>, ghost more: seq<Call>)
      requires Valid()
      modifies population, `sockets, `add, `scripts, `fdsErase, `descriptors, `calls
      modifies `checkCallOnConnect, `checkDetach, `checkTimeout, `checkRetry, `checkClose
      ensures Valid() && population == old(population) && delete == old(delete) && fdsErase == old(fdsErase)
      ensures sockets == old(sockets) - left && forall k :: k in left ==> left == {k} && k in old(sockets)
      ensures calls == old(calls) + more && AtMostOnce(more)
      ensures AllTold(old(Held()), old(fdsErase), more, left, now, last, old(scripts) == [], old(Gentle(scripts)))
      ensures old(scripts) == [] ==> scripts == [] && AllCalled(old(Held()), old(fdsErase), Held(), now, last)
      ensures old(scripts) == [] && !slave && left == {} ==> NoneDetached(old(Held()), old(fdsErase), sockets.Keys)
    {
      hide Valid, Stepped, CalledFor, Gentle, Timers, Flag, Socket.Pending, Raised, Lost, Astray, AllTold, AllCalled;
      hide AtMostOnce, Held, NoneDetached;
      ghost var h0, q, quiet, gentle, timers := Held(), fdsErase, scripts == [], Gentle(scripts), Timers();
      if quiet { NoneIsGentle(); }
      TimersHeld();
      ghost var a := CheckIf(CallOnConnect, now);
      ghost var h1 := Held();
      TimersHeld();
      left := DetachIf();
      TimersHeld();
      ghost var h1', scripts', b: seq<Call> := Held(), scripts, [];
      if quiet && !slave && left == {} { DetachKept(now, h0, q, h1, sockets.Keys); }
      if now != last {
        b := CheckIf(Timeout, now);
        CalledLess(Timeout, now, h1', q, b, scripts' == [], Gentle(scripts'), quiet, gentle);
      }
      more := a + b;
      assert old(calls) + a + b == old(calls) + more && (now == last ==> calls == old(calls) + a);
      TimersHeld();
      CallingIs(now, last, h0, q, a, h1, left, h1', b, Held(), quiet, gentle);
    }

    /** The conditional checks, in their order; `left` is where a socket was detached. */
    method Checks(now: int, last: int) returns (ghost left: set<int>, ghost more: seq<Call>)
      requires Valid()
      modifies population, `sockets, `add, `scripts, `fdsErase, `descriptors, `calls
      modifies `checkCallOnConnect, `checkDetach, `checkTimeout, `checkRetry, `checkClose
      ensures Valid() && population == old(population) && delete == old(delete)
      ensures sockets == old(sockets) - left && forall k :: k in left ==> left == {k} && k in old(sockets)
      ensures calls == old(calls) + more && AtMostOnce(more)
      ensures AllTold(old(Held()), old(fdsErase), more, left, now, last, old(scripts) == [], old(Gentle(scripts)))
      ensures old(scripts) == [] ==>
        scripts == [] && AllTreated(old(Held()), old(fdsErase), Held(), fdsErase, now, last)
      ensures old(scripts) == [] ==>
        forall k :: k in sockets && old(sockets[k].retry && sockets[k].uid !in fdsErase) ==> sockets[k] in add
      ensures old(scripts) == [] && !slave && left == {} ==> NoneDetached(old(Held()), old(fdsErase), sockets.Keys)
    {
      hide Valid, Stepped, CalledFor, Gentle, Timers, Flag, Socket.Pending, Raised, Lost, Astray, AllTold, AllCalled;
      hide AtMostOnce, Held, NoneDetached, AllTreated;
      ghost var h0, q, quiet := Held(), fdsErase, scripts == [];
      TimersHeld();
      left, more := CallingChecks(now, last);
      ghost var h2 := Held();
      TimersHeld();
      if quiet { RetryKept(h0, q, h2, now, last); }
      ghost var none := CheckIf(Retry, now);
      TimersHeld();
      ghost var h3, q3 := Held(), fdsErase;
      none := CheckIf(Close, now);
      TimersHeld();
      if quiet { LeavingIs(now, last, h0, q, h2, h3, q3, Held(), fdsErase); }
    }

    /** Some held socket has work to do, and is not about to be erased. */
    ghost predicate Waiting()
      reads this, population
      requires Shape()
    {
      exists k, w :: k in sockets && sockets[k].Pending(w) && sockets[k].uid !in fdsErase
    }

    /** The sockets held when those to be added have come in, as far as there is room. */
    ghost function WillHold(): map<int, Socket>
      reads this, population
    {
      Entered(sockets, Entries(add, Fds()), maxCount)
    }

    /** A socket that is to be added will be held, is not closing and has work to do. */
    ghost predicate BringsWork()
      requires Shape()
      reads this, population
    {
      exists p, w :: p in add && !p.close && p.Pending(w) && p.fd in WillHold() && WillHold()[p.fd] == p
    }

    lemma BringsWorkIs()
      requires Shape()
      ensures BringsWork() <==> Brings(WillHold(), add, Fds(), Tasks())
    {
      hide Entered, Entries;
      if BringsWork() {
        var p, w :| p in add && !p.close && p.Pending(w) && p.fd in WillHold() && WillHold()[p.fd] == p;
        assert w in Tasks()[p] && (Close in Tasks()[p] <==> p.Pending(Close)) && p.Pending(Close) == p.close by {
          TaskIs(p, w);
          TaskIs(p, Close);
        }
        assert BringsOne(WillHold(), p, w, Fds(), Tasks());
      }
      if Brings(WillHold(), add, Fds(), Tasks()) {
        var p, w :| p in add && BringsOne(WillHold(), p, w, Fds(), Tasks());
        TaskIs(p, w);
        TaskIs(p, Close);
        assert Fds()[p] == p.fd && p.Pending(w);
      }
    }

    lemma TaskIs(p: Socket, w: Work)
      requires p in population
      ensures p in Tasks() && (w in Tasks()[p] <==> p.Pending(w)) && (p.close <==> p.Pending(Close))
    {
    }

    /** With all flags down nothing that is held has work to do. */
    lemma NothingHeldHasWork()
      requires Valid() && fdsErase == [] && forall w :: !Flag(w)
      ensures forall k, w :: k in sockets ==> !sockets[k].Pending(w)
      ensures forall k :: k in sockets ==> sockets[k] in Tasks() && Tasks()[sockets[k]] == {}
    {
      forall k, w | k in sockets
        ensures !sockets[k].Pending(w)
      {
        assert Served(w, sockets[k]);
      }
    }

    lemma WaitingIff(start: map<int, Socket>, all: seq<Socket>, fds: map<Socket, int>, tasks: map<Socket, set<Work>>)
      requires Valid() && CalmWork(tasks, false) && fds.Keys == tasks.Keys && forall p :: p in all ==> p in fds
      requires sockets == Entered(start, Entries(all, fds), maxCount)
      requires forall k :: k in start ==> start[k] in tasks && tasks[start[k]] == {}
      ensures Waiting() <==> Brings(sockets, all, fds, tasks)
    {
      hide Entered, Entries, Socket.Pending, Settled, Watched;
      if Waiting() {
        var k, w :| k in sockets && sockets[k].Pending(w) && sockets[k].uid !in fdsErase;
        var p := sockets[k];
        TaskIs(p, w);
        TaskIs(p, Close);
        assert Served(Close, p);
        EnteredFrom(start, Entries(all, fds), maxCount, k);
        assert Entry(k, p) in Entries(all, fds);
        assert BringsOne(sockets, p, w, fds, tasks);
      }
      if Brings(sockets, all, fds, tasks) {
        var p, w :| p in all && BringsOne(sockets, p, w, fds, tasks);
        TaskIs(p, w);
      }
    }

    /** What Select does before it waits for the kernel: it decides from the flags whether to wait without
        a limit, and then takes in the sockets to be added. When no callback interferes it will wait
        without a limit while there is work to do exactly if the sockets to be added bring that work. */
    method Prepare(now: int) returns (forever: bool)
      requires Valid() && fdsErase == []
      modifies population, `add, `delete, `scripts, `fdsErase, `sockets, `maxsock
      modifies `checkCallOnConnect, `checkDetach, `checkTimeout, `checkRetry, `checkClose
      ensures Valid() && population == old(population)
      ensures forever <==> old(forall w :: !Flag(w))
      ensures forever ==> old(forall k, w :: k in sockets ==> !sockets[k].Pending(w))
      ensures forever && old(scripts) == [] ==> (Waiting() <==> old(BringsWork()))
      ensures old(scripts) == [] ==>
        scripts == [] && sockets == old(WillHold()) && AllHeld(old(Expected()), Held(), fdsErase)
      ensures old(add) == [] ==> unchanged(this) && unchanged(population)
    {
      hide Valid, Plain, Waiting, BringsWork, Brings, Entered, Entries, Tasks, Fds, Socket.Pending;
      hide OnlyClosingQueued, SameBut, Unmoved, Views;
      forever := !(checkCallOnConnect || checkDetach || checkTimeout || checkRetry || checkClose);
      assert !forever ==> Flag(CallOnConnect) || Flag(Detach) || Flag(Timeout) || Flag(Retry) || Flag(Close);
      if forever { NothingHeldHasWork(); }
      PlainAtRest();
      BringsWorkIs();
      HeldWell();
      ghost var start, all, fds, tasks, before, expected := sockets, add, Fds(), Tasks(), AsItIs(), Expected();
      TasksAreViews();
      var calm := scripts == [];
      ghost var taken := TakeIn(now);
      if forever && calm {
        WaitingIff(start, all, fds, tasks);
      }
      if calm { ExpectedIs(before, expected); }
    }

    lemma TasksAreViews()
      ensures forall p :: p in Tasks() && p in Views() ==> (Close in Tasks()[p] <==> Views()[p].close)
    {
    }

    /** The sockets that will be held and have not only been queued, as they are. */
    ghost function Expected(): map<int, View>
      reads this, population
    {
      Expecting(WillHold(), sockets, Views())
    }

    lemma ExpectedIs(before: Before, expected: map<int, View>)
      requires Valid() && Calm(before) && expected == Expecting(sockets, before.sockets, before.views)
      requires forall p :: p in before.tasks && p in before.views ==>
        (Close in before.tasks[p] <==> before.views[p].close)
      ensures AllHeld(expected, Held(), fdsErase)
    {
      hide NoLostWork, Settled, Watched;
      forall k | k in expected
        ensures k in Held() && Held()[k] == expected[k] && expected[k].uid !in fdsErase
      {
        var p := sockets[k];
        assert p in population && p in Views() && p in before.views;
        assert p.uid !in fdsErase;
        assert Views()[p] == before.views[p] == Held()[k];
      }
    }

    /** AddIncoming, if there is anything to be added. */
    method TakeIn(now: int) returns (ghost taken: seq<Entry>)
      requires Valid() && Plain()
      modifies population, `add, `delete, `scripts, `fdsErase, `sockets, `maxsock
      modifies `checkCallOnConnect, `checkDetach, `checkTimeout, `checkRetry, `checkClose
      ensures Valid() && population == old(population)
      ensures old(scripts) == [] && old(fdsErase) == [] ==>
        && sockets == Entered(old(sockets), Entries(old(add), old(Fds())), maxCount)
        && Calm(old(AsItIs()))
      ensures old(add) == [] ==> unchanged(this) && unchanged(population)
    {
      hide Valid, Plain, Calm, Entered, AsItIs, Fds;
      taken := [];
      if add != [] {
        taken := AddIncoming(now);
      } else {
        EnteredDone(sockets, Entries(add, Fds()), maxCount);
        if scripts == [] && fdsErase == [] { CalmAtRest(); }
      }
    }

    /** The kernel tells `ready` sockets that they can read or write. */
    method TellReady(now: int, ready: nat)
      requires Valid()
      modifies population, `add, `scripts
      modifies `checkCallOnConnect, `checkDetach, `checkTimeout, `checkRetry, `checkClose
      ensures Valid() && Moves() && fdsErase == old(fdsErase)
      ensures old(scripts) == [] ==> scripts == [] && add == old(add) && Views() == old(Views())
      ensures Gentle(old(scripts)) ==> Gentle(scripts)
      ensures Gentle(old(scripts)) ==> old(Connecting()) <= Connecting() && Timers() == old(Timers())
    {
      hide Valid, Views, Gentle, Connecting, Timers;
      ghost var quiet, gentle := scripts == [], Gentle(scripts);
      for i := 0 to ready
        invariant Valid() && Moves() && fdsErase == old(fdsErase)
        invariant quiet ==> scripts == [] && add == old(add) && Views() == old(Views())
        invariant gentle ==> Gentle(scripts) && old(Connecting()) <= Connecting() && Timers() == old(Timers())
      {
        Notify(now);
      }
    }

    /** Queued sockets are erased, and those that were turned away are deleted. */
    method Finish(now: int)
      requires Valid()
      modifies population, `sockets, `add, `delete, `scripts, `fdsErase, `maxsock
      modifies `checkCallOnConnect, `checkDetach, `checkTimeout, `checkRetry, `checkClose
      ensures Valid() && fdsErase == [] && delete == [] && population == old(population)
      ensures sockets == Without(old(sockets), old(fdsErase))
      ensures old(scripts) == [] ==> add == old(add) && Looks() == old(Looks())
    {
      hide Valid, Looks;
      ghost var quiet := scripts == [];
      WithoutNone(sockets);
      if fdsErase != [] {
        ghost var freed := CheckErasedSockets();
      }
      ghost var held := sockets;
      while delete != []
        invariant Valid() && fdsErase == [] && population == old(population) && sockets == held
        invariant quiet ==> scripts == [] && add == old(add) && Looks() == old(Looks())
        decreases |delete|
      {
        DeleteFirst(now);
      }
    }

    lemma HeldOf()
      requires Shape()
      ensures Held().Keys == sockets.Keys
      ensures forall k :: k in sockets ==>
        && sockets[k] in Views() && Held()[k] == Views()[sockets[k]] && Held()[k].uid == sockets[k].uid
        && sockets[k] in Looks() && Looks()[sockets[k]] == Held()[k].(erased := false)
        && (Held()[k].callOnConnect <==> sockets[k] in Connecting())
    {
    }

    /** Select once the sockets to be added are in. */
    method Serve(now: int, last: int, ready: nat, ghost expected: map<int, View>)
      returns (ghost left: set<int>, ghost more: seq<Call>)
      requires Valid() && (scripts == [] ==> AllHeld(expected, Held(), fdsErase))
      modifies population, `sockets, `add, `delete, `scripts, `fdsErase, `descriptors, `maxsock, `calls
      modifies `checkCallOnConnect, `checkDetach, `checkTimeout, `checkRetry, `checkClose
      ensures Valid() && fdsErase == [] && delete == [] && population == old(population)
      ensures calls == old(calls) + more && AtMostOnce(more) && forall k :: k in left ==> left == {k}
      ensures old(scripts) == [] ==>
        Done(expected, old(sockets), Looks(), sockets, add, left, more, now, last)
      ensures old(scripts) == [] && !slave && left == {} ==> forall k :: k in expected ==> !expected[k].detach
      ensures old(Gentle(scripts)) ==> AllTold(old(Held()), old(fdsErase), more, left, now, last, false, true)
    {
      hide Valid, Flag, Socket.Pending, Raised, Lost, Astray, Gentle, AtMostOnce, AllTold, AllTreated, AllHeld, Done;
      hide NoneDetached, Held, Views, Looks, Timers, Connecting;
      ghost var quiet, gentle, held, h0, q := scripts == [], Gentle(scripts), sockets, Held(), fdsErase;
      HeldOf();
      TimersHeld();
      TellReady(now, ready);
      HeldOf();
      TimersHeld();
      ghost var h, quietThen := Held(), scripts == [];
      if quiet { SameViews(h0, h); }
      left, more := Checks(now, last);
      HeldOf();
      ghost var mid, h', q' := sockets, Held(), fdsErase;
      ghost var add' := add;
      if quiet && !slave && left == {} { ExpectedStay(expected, h, q, held, left, sockets.Keys); }
      Finish(now);
      if gentle { ToldEarlier(h0, h, q, more, left, now, last, quietThen); }
      if quiet {
        NoneIsGentle();
        DoneIs(expected, held, h, q, mid, h', q', Looks(), sockets, add, left, more, now, last);
      }
    }

    /** Select: between two calls no work is lost and nothing is queued, and in each of them every socket that
        is held gets what its fields call for. `ready` sockets are told by the kernel that they can read or
        write; `last` is the time of the last check of the timeouts; `left` is where one was detached. */
    method Select(now: int, last: int, ready: nat)
      returns (forever: bool, ghost left: set<int>, ghost more: seq<Call>)
      requires Valid() && fdsErase == []
      modifies population, `sockets, `add, `delete, `scripts, `fdsErase, `descriptors, `maxsock, `calls
      modifies `checkCallOnConnect, `checkDetach, `checkTimeout, `checkRetry, `checkClose
      ensures Valid() && fdsErase == [] && delete == [] && population == old(population)
      ensures forever <==> old(forall w :: !Flag(w))
      ensures calls == old(calls) + more && AtMostOnce(more) && forall k :: k in left ==> left == {k}
      ensures old(scripts) == [] ==>
        Done(old(Expected()), old(WillHold()), Looks(), sockets, add, left, more, now, last)
      ensures old(scripts) == [] && !slave && left == {} ==>
        forall k :: k in old(Expected()) ==> !old(Expected())[k].detach
      ensures old(add == [] && Gentle(scripts)) ==> AllTold(old(Held()), [], more, left, now, last, false, true)
    {
      hide Valid, Plain, Waiting, BringsWork, Flag, Expected, WillHold, Done, AllTold, AtMostOnce, Gentle, Held;
      hide AllHeld, Looks;
      ghost var expected := if scripts == [] then Expected() else map[];
      forever := Prepare(now);
      NoneExpected(Held(), fdsErase);
      left, more := Serve(now, last, ready, expected);
    }

    /** GetCount. */
    function Count(): nat
      reads `sockets, `add, `delete
    {
      |sockets| + |add| + |delete|
    }
  }

  /** A closing socket that was to be called on connect, and a handler that has lowered the flag since. */
  method ClosingSocket(traits: Traits) returns (h: SocketHandler, p: Socket)
    ensures fresh(h) && fresh(p) && h.population == [p] && h.Shape() && h.sockets == map[] && h.scripts == []
    ensures p.fd == 5 && p.close && p.callOnConnect && !h.checkCallOnConnect
  {
    h := new SocketHandler(false, 10, [], []);
    p := new Socket(h, 1, 5, traits, true);
    h.population := [p];
    p.SetCallOnConnect(true);
    h.Begin(CallOnConnect);
    assert !h.Flag(CallOnConnect);
    p.SetCloseAndDelete(true, 0);
  }

  /** Inside Select, work on a closing socket may be without its flag: the socket is only queued. */
  method ClosingSocketOnlyQueued(traits: Traits) returns (h: SocketHandler, p: Socket)
    ensures h.Valid() && 5 in h.sockets && h.sockets[5] == p
    ensures p.Pending(CallOnConnect) && !h.Flag(CallOnConnect) && p.uid in h.fdsErase
  {
    hide SocketHandler.Valid, SocketHandler.Plain;
    h, p := ClosingSocket(traits);
    h.EmptyIsValid();
    h.TaskIs(p, CallOnConnect);
    assert CallOnConnect in h.Unflagged(p);
    h.InsertClosing(p, 0);
    assert CallOnConnect in h.Unflagged(p);
    h.TaskIs(p, CallOnConnect);
  }

  /** A socket that is to be called on connect and waits to be added, and a handler that has lowered
      the flag since, as the socket was not held yet. */
  method AddedSocket(traits: Traits) returns (h: SocketHandler, p: Socket)
    ensures fresh(h) && fresh(p) && h.Valid() && h.fdsErase == [] && h.scripts == [] && forall w :: !h.Flag(w)
    ensures h.sockets == map[] && h.maxCount == 10 && h.add == [p] && p.fd == 5 && !p.close && p.callOnConnect
    ensures h.population == [p]
  {
    h := new SocketHandler(false, 10, [], []);
    p := new Socket(h, 1, 5, traits, true);
    assert !p.Pending(Close);
    h.population, h.add := [p], [p];
    hide SocketHandler.Valid, SocketHandler.Flag, Socket.Pending, SocketHandler.ServedBut, SocketHandler.Lost;
    RaiseThenLower(h, p);
    h.EmptyIsValid();
  }

  method RaiseThenLower(h: SocketHandler, p: Socket)
    requires h.Shape() && h.sockets == map[] && p.handler == h && forall w :: !h.Flag(w)
    modifies p`callOnConnect, h`checkCallOnConnect, h`checkDetach, h`checkTimeout, h`checkRetry, h`checkClose
    ensures p.callOnConnect && forall w :: !h.Flag(w)
  {
    label before:
    p.SetCallOnConnect(true);
    assert forall w :: w != CallOnConnect ==> h.Flag(w) == old@before(h.Flag(w));
    h.Begin(CallOnConnect);
  }

  /** The handler waits without a limit while a socket that it holds waits for its OnConnect. */
  method ConnectIsNotNoticed(traits: Traits) returns (h: SocketHandler, p: Socket, forever: bool)
    ensures forever && h.Valid() && h.Waiting() && h.population == [p]
  {
    hide SocketHandler.Valid, SocketHandler.Plain;
    h, p := AddedSocket(traits);
    var entries := Entries(h.add, h.Fds());
    assert entries[0] == Entry(5, p) && Newest(map[], entries[0])[5] == p;
    EnteredOne(h.sockets, h.add, h.Fds(), h.maxCount, Entry(5, p));
    EnteredDone(Newest(map[], Entry(5, p)), Entries(h.add[1..], h.Fds()), h.maxCount);
    assert p in h.add && p.Pending(CallOnConnect) && h.WillHold()[5] == p;
    assert h.BringsWork();
    forever := h.Prepare(0);
  }

  /** A socket taken from the queue of those to be added, and its descriptor then. */
  datatype Entry = Entry(fd: int, p: Socket)

  /** The newer socket has the descriptor. */
  ghost function Newest(sockets: map<int, Socket>, entry: Entry): map<int, Socket> {
    if entry.fd == INVALID_SOCKET || (entry.fd in sockets && sockets[entry.fd].uid >= entry.p.uid) then sockets
    else sockets[entry.fd := entry.p]
  }

  function Sockets(taken: seq<Entry>): seq<Socket> {
    if taken == [] then [] else [taken[0].p] + Sockets(taken[1..])
  }

  lemma {:induction false} SocketsOne(taken: seq<Entry>, entry: Entry)
    ensures Sockets(taken + [entry]) == Sockets(taken) + [entry.p]
  {
    if taken == [] {
      assert [entry][1..] == [];
    } else {
      assert (taken + [entry])[1..] == taken[1..] + [entry];
      SocketsOne(taken[1..], entry);
    }
  }

  lemma ShiftedMore(all: seq<Socket>, more: seq<Socket>, taken: seq<Socket>, before: seq<Socket>, after: seq<Socket>)
    requires before != [] && all + more == taken + before && before[1..] <= after
    ensures all + (more + after[|before| - 1..]) == taken + [before[0]] + after
  {
    Shifted(all + more, taken, before, after);
    assert all + more + after[|before| - 1..] == all + (more + after[|before| - 1..]);
  }

  lemma Shifted(all: seq<Socket>, taken: seq<Socket>, before: seq<Socket>, after: seq<Socket>)
    requires before != [] && all == taken + before && before[1..] <= after
    ensures all + after[|before| - 1..] == taken + [before[0]] + after
  {
    assert before == [before[0]] + before[1..];
    assert after == before[1..] + after[|before| - 1..];
  }

  /** Each descriptor is held by the newest of the socket that had it and those that came in for it. */
  ghost predicate NewestHold(before: map<int, Socket>, taken: seq<Entry>, after: map<int, Socket>) {
    && (forall fd :: fd in before ==> fd in after && before[fd].uid <= after[fd].uid)
    && (forall e :: e in taken && e.fd != INVALID_SOCKET ==> e.fd in after && e.p.uid <= after[e.fd].uid)
    && (forall fd :: fd in after ==>
          (fd in before && after[fd] == before[fd]) || (fd != INVALID_SOCKET && Entry(fd, after[fd]) in taken))
  }

  lemma NewestNone(sockets: map<int, Socket>)
    ensures NewestHold(sockets, [], sockets)
  {
  }

  lemma NewestOne(before: map<int, Socket>, taken: seq<Entry>, middle: map<int, Socket>, entry: Entry)
    requires NewestHold(before, taken, middle)
    ensures NewestHold(before, taken + [entry], Newest(middle, entry))
    ensures |Newest(middle, entry)| <= |middle| + 1
  {
    var after, more := Newest(middle, entry), taken + [entry];
    assert more[|taken|] == entry && forall e :: e in taken ==> e in more;
    if after == middle {
      NewestSame(before, taken, middle, entry);
    } else {
      assert after.Keys == middle.Keys + {entry.fd};
      NewestIn(before, taken, middle, entry);
    }
  }

  lemma NewestSame(before: map<int, Socket>, taken: seq<Entry>, middle: map<int, Socket>, entry: Entry)
    requires NewestHold(before, taken, middle) && Newest(middle, entry) == middle
    ensures NewestHold(before, taken + [entry], middle)
  {
    var more := taken + [entry];
    assert forall e :: e in taken ==> e in more;
    forall e | e in more && e.fd != INVALID_SOCKET
      ensures e.fd in middle && e.p.uid <= middle[e.fd].uid
    {
      if e !in taken { assert e == entry && middle[entry.fd := entry.p][entry.fd] == entry.p; }
    }
  }

  lemma NewestIn(before: map<int, Socket>, taken: seq<Entry>, middle: map<int, Socket>, entry: Entry)
    requires NewestHold(before, taken, middle) && Newest(middle, entry) != middle
    ensures NewestHold(before, taken + [entry], Newest(middle, entry))
  {
    var more, after := taken + [entry], Newest(middle, entry);
    assert more[|taken|] == entry && forall e :: e in taken ==> e in more;
  }

  /** A descriptor is lost only by a closing socket that comes in. */
  ghost predicate FdsAfter(before: map<Socket, int>, after: map<Socket, int>, sockets: map<int, Socket>, entry: Entry) {
    after == before ||
    (after == before[entry.p := INVALID_SOCKET] && entry.fd in sockets && sockets[entry.fd] == entry.p)
  }

  /** The uids that are queued when a socket comes in: the one that it replaces, and its own if it is closing. */
  ghost function Queues(sockets: map<int, Socket>, entry: Entry, closing: bool): seq<nat> {
    if Newest(sockets, entry) == sockets then []
    else (if entry.fd in sockets then [sockets[entry.fd].uid] else []) + if closing then [entry.p.uid] else []
  }

  // ----- taking in, told by the descriptors at first -----

  /** The sockets to be added and the descriptors they have. */
  function Entries(add: seq<Socket>, fds: map<Socket, int>): (r: seq<Entry>)
    ensures |r| == |add|
    ensures forall i :: 0 <= i < |add| ==> r[i].p == add[i] && (add[i] in fds ==> r[i].fd == fds[add[i]])
  {
    seq(|add|, i requires 0 <= i < |add| => Entry(if add[i] in fds then fds[add[i]] else INVALID_SOCKET, add[i]))
  }

  /** The sockets held when those of `entries` that there is room for have come in. */
  ghost function Entered(sockets: map<int, Socket>, entries: seq<Entry>, maxCount: nat): map<int, Socket>
    decreases entries
  {
    if entries == [] || |sockets| >= maxCount then sockets
    else Entered(Newest(sockets, entries[0]), entries[1..], maxCount)
  }

  lemma EnteredOne(sockets: map<int, Socket>, add: seq<Socket>, fds: map<Socket, int>, maxCount: nat, entry: Entry)
    requires add != [] && |sockets| < maxCount && add[0] in fds && entry == Entry(fds[add[0]], add[0])
    ensures Entered(sockets, Entries(add, fds), maxCount)
         == Entered(Newest(sockets, entry), Entries(add[1..], fds), maxCount)
  {
    hide Newest;
    assert Entries(add, fds)[1..] == Entries(add[1..], fds);
  }

  lemma {:induction false} EnteredFrom(sockets: map<int, Socket>, entries: seq<Entry>, maxCount: nat, k: int)
    requires k in Entered(sockets, entries, maxCount)
    ensures var p := Entered(sockets, entries, maxCount)[k];
      (k in sockets && p == sockets[k]) || (k != INVALID_SOCKET && Entry(k, p) in entries)
    decreases entries
  {
    if entries != [] && |sockets| < maxCount {
      EnteredFrom(Newest(sockets, entries[0]), entries[1..], maxCount, k);
    }
  }

  ghost predicate BringsOne(held: map<int, Socket>, p: Socket, w: Work, fds: map<Socket, int>,
                            tasks: map<Socket, set<Work>>)
  {
    p in fds && p in tasks && Close !in tasks[p] && w in tasks[p] && fds[p] in held && held[fds[p]] == p
  }

  /** A socket of `add` has come to be held, is not closing and has work to do. */
  ghost predicate Brings(held: map<int, Socket>, add: seq<Socket>, fds: map<Socket, int>,
                         tasks: map<Socket, set<Work>>)
  {
    exists p, w :: p in add && BringsOne(held, p, w, fds, tasks)
  }

  lemma EnteredDone(sockets: map<int, Socket>, entries: seq<Entry>, maxCount: nat)
    requires entries == [] || |sockets| >= maxCount
    ensures Entered(sockets, entries, maxCount) == sockets
  {
  }

  ghost predicate HadThese(fds: map<Socket, int>, taken: seq<Entry>) {
    forall e :: e in taken ==> e.p in fds && e.fd == fds[e.p]
  }

  /** A descriptor has been lost only by a socket that was taken in, or that a newer one then replaced. */
  ghost predicate Traced(sockets: map<int, Socket>, fds: map<Socket, int>, now: map<Socket, int>) {
    && now.Keys == fds.Keys
    && forall p :: p in fds ==>
         now[p] == fds[p] || (now[p] == INVALID_SOCKET && fds[p] in sockets && sockets[fds[p]].uid >= p.uid)
  }

  lemma TracedNone(sockets: map<int, Socket>, fds: map<Socket, int>)
    ensures Traced(sockets, fds, fds)
  {
  }

  lemma TracedOn(sockets: map<int, Socket>, fds: map<Socket, int>, now: map<Socket, int>,
                 after: map<Socket, int>, entry: Entry)
    requires Traced(sockets, fds, now) && entry.p in now && entry.fd == now[entry.p]
    requires FdsAfter(now, after, Newest(sockets, entry), entry)
    ensures entry.p in fds && Newest(sockets, entry) == Newest(sockets, Entry(fds[entry.p], entry.p))
    ensures Traced(Newest(sockets, entry), fds, after)
  {
  }

  /** Each socket is held once, under the descriptor it has, if any; a uid names one socket. */
  ghost predicate HeldUnder(sockets: map<int, Socket>, fds: map<Socket, int>) {
    && (forall k :: k in sockets ==> sockets[k] in fds && (fds[sockets[k]] == k || fds[sockets[k]] == INVALID_SOCKET))
    && (forall j, k :: j in sockets && k in sockets && sockets[j] == sockets[k] ==> j == k)
    && (forall p, q :: p in fds && q in fds && p.uid == q.uid ==> p == q)
  }

  /** Held sockets that are queued are closing; others that are queued were replaced. */
  ghost predicate OnlyClosingQueued(sockets: map<int, Socket>, queued: seq<nat>, fds: map<Socket, int>,
                                    tasks: map<Socket, set<Work>>)
  {
    && tasks.Keys == fds.Keys
    && (forall k :: k in sockets ==> sockets[k] in tasks && (sockets[k].uid in queued ==> Close in tasks[sockets[k]]))
    && (forall q :: q in fds && q.uid in queued && Close !in tasks[q] && fds[q] != INVALID_SOCKET ==>
          fds[q] in sockets && sockets[fds[q]].uid > q.uid)
  }

  lemma OnlyClosingQueuedOn(sockets: map<int, Socket>, queued: seq<nat>, fds: map<Socket, int>,
                            tasks: map<Socket, set<Work>>, entry: Entry, after: map<Socket, int>)
    requires OnlyClosingQueued(sockets, queued, fds, tasks) && HeldUnder(sockets, fds)
    requires entry.p in fds && entry.fd == fds[entry.p] && FdsAfter(fds, after, Newest(sockets, entry), entry)
    ensures OnlyClosingQueued(Newest(sockets, entry), queued + Queues(sockets, entry, Close in tasks[entry.p]),
                              after, tasks)
  {
    hide Newest, Queues, HeldUnder;
    var p, now := entry.p, Newest(sockets, entry);
    var more := Queues(sockets, entry, Close in tasks[p]);
    NewestCases(sockets, entry, Close in tasks[p], fds);
    if now != sockets {
      forall k | k in now && Close !in tasks[now[k]]
        ensures now[k].uid !in queued + more
      {
        OthersNotQueued(sockets, queued, fds, tasks, entry, k);
      }
      forall q | q in fds && q.uid in queued + more && Close !in tasks[q] && after[q] != INVALID_SOCKET
        ensures after[q] in now && now[after[q]].uid > q.uid
      {
        ReplacedByNewer(sockets, queued, fds, tasks, entry, q);
      }
    } else {
      assert queued + more == queued;
    }
  }

  lemma ReplacedByNewer(sockets: map<int, Socket>, queued: seq<nat>, fds: map<Socket, int>,
                        tasks: map<Socket, set<Work>>, entry: Entry, q: Socket)
    requires OnlyClosingQueued(sockets, queued, fds, tasks) && HeldUnder(sockets, fds)
    requires entry.p in fds && entry.fd == fds[entry.p] && Newest(sockets, entry) != sockets
    requires q in fds && q.uid in queued + Queues(sockets, entry, Close in tasks[entry.p])
    requires Close !in tasks[q] && fds[q] != INVALID_SOCKET
    ensures fds[q] in Newest(sockets, entry) && Newest(sockets, entry)[fds[q]].uid > q.uid
  {
    var s := entry.fd;
    if q.uid !in queued {
      assert s in sockets && q == sockets[s];
    }
  }

  lemma OthersNotQueued(sockets: map<int, Socket>, queued: seq<nat>, fds: map<Socket, int>,
                        tasks: map<Socket, set<Work>>, entry: Entry, k: int)
    requires OnlyClosingQueued(sockets, queued, fds, tasks) && HeldUnder(sockets, fds)
    requires entry.p in fds && entry.fd == fds[entry.p] && Newest(sockets, entry) != sockets
    requires k in Newest(sockets, entry) && Close !in tasks[Newest(sockets, entry)[k]]
    ensures Newest(sockets, entry)[k].uid !in queued + Queues(sockets, entry, Close in tasks[entry.p])
  {
    var h, s := Newest(sockets, entry)[k], entry.fd;
    assert h.uid !in queued;
    if s in sockets {
      assert h != sockets[s] && h.uid != sockets[s].uid;
    }
  }

  lemma NewestCases(sockets: map<int, Socket>, entry: Entry, closing: bool, fds: map<Socket, int>)
    ensures entry.fd == INVALID_SOCKET || (entry.fd in sockets && sockets[entry.fd].uid >= entry.p.uid) ==>
      && Newest(sockets, entry) == sockets && Queues(sockets, entry, closing) == []
      && (Refused(sockets, entry) <==> entry.fd == INVALID_SOCKET || sockets[entry.fd] != entry.p)
      && FdsAfter(fds, fds, sockets, entry)
    ensures entry.fd != INVALID_SOCKET && (entry.fd in sockets ==> sockets[entry.fd].uid < entry.p.uid) ==>
      var now := sockets[entry.fd := entry.p];
      && Newest(sockets, entry) == now && !Refused(sockets, entry)
      && Queues(sockets, entry, closing)
         == (if entry.fd in sockets then [sockets[entry.fd].uid] else []) + (if closing then [entry.p.uid] else [])
      && FdsAfter(fds, fds, now, entry) && FdsAfter(fds, fds[entry.p := INVALID_SOCKET], now, entry)
      && (entry.fd !in sockets ==> Queues(sockets, entry, closing) == if closing then [entry.p.uid] else [])
  {
    if entry.fd != INVALID_SOCKET && (entry.fd in sockets ==> sockets[entry.fd].uid < entry.p.uid) {
      assert sockets[entry.fd := entry.p][entry.fd] == entry.p;
    }
  }

  /** What there is before AddIncoming: the work, the flag for closing, the sockets and those held. */
  datatype Before = Before(tasks: map<Socket, set<Work>>, checked: bool, views: map<Socket, View>,
                           sockets: map<int, Socket>)

  ghost function Expecting(held: map<int, Socket>, first: map<int, Socket>, views: map<Socket, View>): map<int, View> {
    map k | k in held && held[k] in views && (views[held[k]].close ==> k in first && first[k] == held[k])
      :: views[held[k]]
  }

  /** They are held as they were, and not queued. */
  ghost predicate AllHeld(expected: map<int, View>, views: map<int, View>, queued: seq<nat>) {
    forall k :: k in expected ==> k in views && views[k] == expected[k] && expected[k].uid !in queued
  }

  lemma SameButNone(views: map<Socket, View>)
    ensures SameBut([], views, views)
  {
  }

  lemma SameButTwice(uid: nat, start: map<Socket, View>, middle: map<Socket, View>, after: map<Socket, View>)
    ensures SameBut([uid], middle, start) && SameBut([uid], after, middle) ==> SameBut([uid], after, start)
  {
  }

  lemma SameButOn(queued: seq<nat>, more: seq<nat>, start: map<Socket, View>, before: map<Socket, View>,
                  after: map<Socket, View>)
    ensures SameBut(queued, before, start) && SameBut(more, after, before) ==> SameBut(queued + more, after, start)
  {
  }

  /** A descriptor is held by the same socket as at first, which is not queued, or by a newer one. */
  ghost predicate Unmoved(start: map<int, Socket>, sockets: map<int, Socket>, queued: seq<nat>) {
    forall k :: k in start ==>
      && k in sockets && start[k].uid <= sockets[k].uid
      && (sockets[k] == start[k] ==> start[k].uid !in queued)
  }

  lemma UnmovedOn(start: map<int, Socket>, sockets: map<int, Socket>, queued: seq<nat>, fds: map<Socket, int>,
                  entry: Entry, closing: bool)
    requires Unmoved(start, sockets, queued) && HeldUnder(sockets, fds)
    requires entry.p in fds && entry.fd == fds[entry.p]
    ensures Unmoved(start, Newest(sockets, entry), queued + Queues(sockets, entry, closing))
  {
    var now, more := Newest(sockets, entry), Queues(sockets, entry, closing);
    if now == sockets {
      assert queued + more == queued;
    } else {
      forall k | k in start
        ensures k in now && start[k].uid <= now[k].uid && (now[k] == start[k] ==> start[k].uid !in queued + more)
      {
        if k != entry.fd && sockets[k] == start[k] {
          assert start[k] != entry.p && start[k].uid != entry.p.uid;
          if entry.fd in sockets { assert sockets[k] != sockets[entry.fd]; }
        }
      }
    }
  }

  /** A socket is turned away without a descriptor, or for one that is not older. */
  ghost predicate Refused(sockets: map<int, Socket>, entry: Entry) {
    entry.fd == INVALID_SOCKET ||
    (entry.fd in sockets && sockets[entry.fd].uid >= entry.p.uid && sockets[entry.fd] != entry.p)
  }

  /** The largest descriptor, 0 if there is none. */
  ghost predicate Largest(m: int, keys: set<int>) {
    (forall k :: k in keys ==> k <= m) && m >= 0 && (m == 0 || m in keys)
  }

  ghost predicate Contains(sockets: map<int, Socket>, p: Socket) {
    exists k :: k in sockets && sockets[k] == p
  }

  ghost predicate Distinct(s: seq<Socket>) {
    forall i, j :: 0 <= i < j < |s| ==> s[i] != s[j]
  }

  lemma DistinctJoin(s: seq<Socket>, one: seq<Socket>)
    requires Distinct(s) && |one| <= 1 && forall p :: p in one ==> p !in s
    ensures Distinct(s + one)
  {
    forall i, j | 0 <= i < j < |s + one|
      ensures (s + one)[i] != (s + one)[j]
    {
      if j == |s| {
        assert (s + one)[j] in one && (s + one)[i] in s;
      }
    }
  }

  /** The sockets whose uids are not named. */
  ghost function Without(sockets: map<int, Socket>, uids: seq<nat>): map<int, Socket> {
    map k | k in sockets && sockets[k].uid !in uids :: sockets[k]
  }

  lemma WithoutNone(sockets: map<int, Socket>)
    ensures Without(sockets, []) == sockets
  {
  }

  lemma NoProgress(w: Work, todo: set<int>, now: int, views: map<int, View>, queued: seq<nat>)
    requires todo == views.Keys
    ensures Progress(w, todo, now, views, queued, views, queued)
  {
  }

  /** What a round for the socket at `k` does, if no callback interferes. */
  ghost predicate Did(w: Work, k: int, now: int, before: map<int, View>, queued: seq<nat>,
                      after: map<int, View>, queuedAfter: seq<nat>)
  {
    && k in before && k in after && after == before[k := After(w, before[k], now, after[k].fd)]
    && queuedAfter == queued + if Leaves(w, before[k], now) then [before[k].uid] else []
  }

  /** What a check has done to the sockets outside `todo`, if no callback interferes. */
  ghost predicate Progress(w: Work, todo: set<int>, now: int, before: map<int, View>, queued: seq<nat>,
                           after: map<int, View>, queuedAfter: seq<nat>)
  {
    && after.Keys == before.Keys
    && forall k :: k in before ==>
         && after[k] == (if k in todo then before[k] else After(w, before[k], now, after[k].fd))
         && (before[k].uid in queuedAfter <==>
               before[k].uid in queued || (k !in todo && Leaves(w, before[k], now)))
  }

  // ----- what a pass over the checks comes to, in the fields of a socket -----

  predicate Expired(v: View, now: int, last: int) {
    now != last && v.timeoutStart > 0 && v.timeoutLimit > 0 && now - v.timeoutStart > v.timeoutLimit
  }

  /** A live TCP socket with flush-before-close, within five seconds of its closing. */
  predicate Graceful(v: View, now: int) {
    && v.close && v.traits.tcp && (v.traits.connected || v.callOnConnect) && v.traits.flush && !v.traits.ssl
    && (v.traits.lost ==> v.traits.reconnect) && now - v.closedAt < 5
  }

  /** Such a socket stays while it has output, or has not shut down its sending side. */
  predicate Flushing(v: View, now: int) { Graceful(v, now) && (v.traits.outputLength > 0 || !v.traits.shutWr) }

  /** A closing socket that is opened anew. */
  predicate Again(v: View, now: int) {
    v.close && v.traits.tcp && (v.traits.connected || v.callOnConnect) && v.traits.reconnect && !Graceful(v, now)
  }

  /** A closing socket whose connection goes to the pool. */
  predicate Pooled(v: View, now: int) {
    v.close && v.traits.retain && !v.traits.lost && !Graceful(v, now) && !Again(v, now)
  }

  /** A socket that was `v` is `r`, and has left the handler or not, when no callback interferes. */
  ghost predicate Treated(v: View, r: View, left: bool, now: int, last: int) {
    && !r.callOnConnect && !r.retry
    && (!Again(v, now) ==> r.traits.connected == (v.traits.connected || v.callOnConnect))
    && (if !Expired(v, now, last) then r.timeoutStart == v.timeoutStart && r.timeoutLimit == v.timeoutLimit
        else if v.traits.connecting && v.traits.connectTimeout != 0
          then r.timeoutStart == now && r.timeoutLimit == v.traits.connectTimeout
        else r.timeoutStart == 0 && r.timeoutLimit == 0)
    && (left <==> v.retry || (v.close && !Flushing(v, now)))
    && (!v.retry ==>
          && (r.close <==> v.close && !Again(v, now) && !Pooled(v, now))
          && (Again(v, now) ==> !r.traits.connected && (!v.traits.address ==> r.fd == INVALID_SOCKET))
          && (Flushing(v, now) ==> r.fd == v.fd && r.traits.shutWr == (v.traits.shutWr || v.traits.outputLength == 0))
          && (!v.close ==> r.fd == v.fd)
          && (r.close && !Flushing(v, now) && !(v.traits.lost && !Graceful(v, now)) ==> r.fd == INVALID_SOCKET))
    && (v.retry && !v.close && !v.traits.address ==> r.fd == INVALID_SOCKET)
  }

  /** A socket that its handler is to delete is marked when it is closed for good. */
  predicate Marked(v: View, r: View, now: int) {
    !v.retry ==>
      (r.erased <==> v.erased || (v.deleteByHandler && v.close && !Flushing(v, now) && !Again(v, now)))
  }

  lemma AfterMark(v: View, r: View, now: int)
    requires r == After(Close, v, now, r.fd) && !v.callOnConnect && !v.retry
    ensures Marked(v, r, now)
  {
  }

  lemma MarkedBySteps(v: View, v1: View, v2: View, v3: View, r: View, queued: bool, now: int, last: int)
    requires v1 == After(CallOnConnect, v, now, v1.fd)
    requires if now != last then v2 == After(Timeout, v1, now, v2.fd) else v2 == v1
    requires v3 == After(Retry, v2, now, v3.fd) && (queued <==> Leaves(Retry, v2, now))
    requires !queued ==> r == After(Close, v3, now, r.fd)
    ensures Marked(v, r, now)
  {
    BeforeClose(v, v1, v2, v3, now, last);
    LeavesIs(v2, now);
    hide After, Flushing, Again, Leaves;
    if !v.retry {
      SameClosing(v, v3, now);
      AfterMark(v3, r, now);
    }
  }

  lemma TreatedBySteps(v: View, v1: View, v2: View, v3: View, r: View, queued: bool, left: bool, now: int, last: int)
    requires v1 == After(CallOnConnect, v, now, v1.fd)
    requires if now != last then v2 == After(Timeout, v1, now, v2.fd) else v2 == v1
    requires v3 == After(Retry, v2, now, v3.fd) && (queued <==> Leaves(Retry, v2, now))
    requires if queued then left && (r == v3 || r == After(Close, v3, now, r.fd))
             else r == After(Close, v3, now, r.fd) && (left <==> Leaves(Close, v3, now))
    ensures Treated(v, r, left, now, last)
  {
    BeforeClose(v, v1, v2, v3, now, last);
    hide Leaves, Lingers, Reconnects;
    if !queued || r != v3 { AtClose(v, v3, r, now); }
    assert Leaves(Retry, v2, now) == v2.retry by { LeavesIs(v2, now); }
  }

  lemma LeavesIs(v: View, now: int)
    ensures Leaves(Retry, v, now) == v.retry
  {
  }

  lemma AfterConnect(v: View, now: int, fd: int)
    ensures After(CallOnConnect, v, now, fd) ==
      v.(callOnConnect := false, traits := v.traits.(connected := v.traits.connected || v.callOnConnect))
  {
    assert v.traits == v.traits.(connected := v.traits.connected) && v == v.(callOnConnect := v.callOnConnect);
  }

  lemma AfterTimeout(v: View, now: int, fd: int, last: int)
    requires now != last
    ensures var r := After(Timeout, v, now, fd);
      && r == v.(timeoutStart := r.timeoutStart, timeoutLimit := r.timeoutLimit)
      && (if !Expired(v, now, last) then r == v
          else if v.traits.connecting && v.traits.connectTimeout != 0
            then r.timeoutStart == now && r.timeoutLimit == v.traits.connectTimeout
          else r.timeoutStart == 0 && r.timeoutLimit == 0)
  {
  }

  lemma AfterRetry(v: View, now: int, fd: int)
    ensures var r := After(Retry, v, now, fd);
      && r == v.(retry := false, fd := r.fd)
      && (if v.retry then !v.traits.address ==> r.fd == INVALID_SOCKET else r == v)
  {
  }

  /** The socket before CheckClose. */
  lemma BeforeClose(v: View, v1: View, v2: View, v3: View, now: int, last: int)
    requires v1 == After(CallOnConnect, v, now, v1.fd)
    requires if now != last then v2 == After(Timeout, v1, now, v2.fd) else v2 == v1
    requires v3 == After(Retry, v2, now, v3.fd)
    ensures v2.retry == v.retry
    ensures v3 == v.(callOnConnect := false, traits := v.traits.(connected := v.traits.connected || v.callOnConnect),
                     timeoutStart := v3.timeoutStart, timeoutLimit := v3.timeoutLimit, retry := false, fd := v3.fd)
    ensures if !Expired(v, now, last) then v3.timeoutStart == v.timeoutStart && v3.timeoutLimit == v.timeoutLimit
            else if v.traits.connecting && v.traits.connectTimeout != 0
              then v3.timeoutStart == now && v3.timeoutLimit == v.traits.connectTimeout
            else v3.timeoutStart == 0 && v3.timeoutLimit == 0
    ensures if v.retry then !v.traits.address ==> v3.fd == INVALID_SOCKET else v3.fd == v.fd
  {
    hide After;
    AfterConnect(v, now, v1.fd);
    if now != last { AfterTimeout(v1, now, v2.fd, last); }
    AfterRetry(v2, now, v3.fd);
  }

  /** A socket that has been called on connect closes as it would have been closed before. */
  lemma SameClosing(v: View, u: View, now: int)
    requires !u.callOnConnect && u.traits.connected == (v.traits.connected || v.callOnConnect)
    requires u.traits == v.traits.(connected := u.traits.connected) && u.close == v.close && u.closedAt == v.closedAt
    ensures Graceful(u, now) == Graceful(v, now) && Flushing(u, now) == Flushing(v, now)
    ensures Again(u, now) == Again(v, now) && Pooled(u, now) == Pooled(v, now)
  {
  }

  lemma ClosingLeaves(v: View, now: int)
    requires !v.callOnConnect
    ensures Leaves(Close, v, now) <==> v.close && !Flushing(v, now)
  {
  }

  lemma CloseChanges(v: View, now: int, fd: int)
    ensures var r := After(Close, v, now, fd);
      && r.callOnConnect == v.callOnConnect && r.retry == v.retry
      && r.timeoutStart == v.timeoutStart && r.timeoutLimit == v.timeoutLimit
  {
  }

  lemma AfterClose(v: View, r: View, now: int)
    requires r == After(Close, v, now, r.fd) && !v.callOnConnect && v.close
    ensures r.close <==> !Again(v, now) && !Pooled(v, now)
    ensures if Again(v, now) then !r.traits.connected && (!v.traits.address ==> r.fd == INVALID_SOCKET)
            else r.traits.connected == v.traits.connected
  {
  }

  lemma AfterFlush(v: View, r: View, now: int)
    requires r == After(Close, v, now, r.fd) && !v.callOnConnect && v.close
    ensures Flushing(v, now) ==> r.fd == v.fd && r.traits.shutWr == (v.traits.shutWr || v.traits.outputLength == 0)
    ensures r.close && !Flushing(v, now) && !(v.traits.lost && !Graceful(v, now)) ==> r.fd == INVALID_SOCKET
  {
  }

  lemma AtClose(v: View, u: View, r: View, now: int)
    requires r == After(Close, u, now, r.fd)
    requires u == v.(callOnConnect := false, traits := v.traits.(connected := v.traits.connected || v.callOnConnect),
                     timeoutStart := u.timeoutStart, timeoutLimit := u.timeoutLimit, retry := false, fd := u.fd)
    ensures !r.callOnConnect && !r.retry && r.timeoutStart == u.timeoutStart && r.timeoutLimit == u.timeoutLimit
    ensures Leaves(Close, u, now) <==> v.close && !Flushing(v, now)
    ensures r.close <==> v.close && !Again(v, now) && !Pooled(v, now)
    ensures if Again(v, now) then !r.traits.connected && (!v.traits.address ==> r.fd == INVALID_SOCKET)
            else r.traits.connected == (v.traits.connected || v.callOnConnect)
    ensures Flushing(v, now) ==> r.fd == u.fd && r.traits.shutWr == (v.traits.shutWr || v.traits.outputLength == 0)
    ensures !v.close ==> r == u
    ensures r.close && !Flushing(v, now) && !(v.traits.lost && !Graceful(v, now)) ==> r.fd == INVALID_SOCKET
  {
    hide Leaves;
    SameClosing(v, u, now);
    ClosingLeaves(u, now);
    if u.close {
      hide After, Again, Pooled, Flushing, Graceful;
      CloseChanges(u, now, r.fd);
      AfterClose(u, r, now);
      AfterFlush(u, r, now);
    }
  }

  /** What the user is told of a socket that was `v`: exactly this when no callback interferes, at least
      this when callbacks are gentle; for timeouts, if it was not detached before. */
  ghost predicate Told(v: View, more: seq<Call>, stays: bool, now: int, last: int, quiet: bool, gentle: bool) {
    && (quiet ==> (OnConnect(v.uid) in more <==> v.callOnConnect))
    && (quiet && stays ==>
          && (OnTimeout(v.uid) in more <==> Expired(v, now, last) && !v.traits.connecting)
          && (OnConnectTimeout(v.uid) in more <==> Expired(v, now, last) && v.traits.connecting))
    && (gentle && v.callOnConnect ==> OnConnect(v.uid) in more)
    && (gentle && stays && Expired(v, now, last) ==> OnTimeout(v.uid) in more || OnConnectTimeout(v.uid) in more)
  }

  /** No socket is told twice that it is connected, or of a timeout. */
  ghost predicate AtMostOnce(more: seq<Call>) {
    forall i, j :: 0 <= i < j < |more| && more[i].uid == more[j].uid ==> more[i].OnConnect? != more[j].OnConnect?
  }

  lemma OnceInAll(now: int, h0: map<int, View>, q0: seq<nat>, a: seq<Call>, h1: map<int, View>, q1: seq<nat>,
                  b: seq<Call>, quiet: bool, gentle: bool, quiet': bool, gentle': bool)
    requires CalledFor(CallOnConnect, now, h0, q0, a, quiet, gentle)
    requires b == [] || CalledFor(Timeout, now, h1, q1, b, quiet', gentle')
    ensures AtMostOnce(a + b)
  {
    hide CallsFor;
    var all := a + b;
    forall i, j | 0 <= i < j < |all|
      ensures all[i].uid == all[j].uid ==> all[i].OnConnect? != all[j].OnConnect?
    {
      if j < |a| {
        assert all[i] == a[i] && all[j] == a[j];
      } else if i >= |a| {
        assert all[i] == b[i - |a|] && all[j] == b[j - |a|];
      } else {
        assert all[i] in a && all[j] in b;
      }
    }
  }

  /** What is told of a socket, from the calls of the two checks that make any. */
  lemma ToldBySteps(k: int, now: int, last: int, h0: map<int, View>, q0: seq<nat>, a: seq<Call>, h1: map<int, View>,
                    q1: seq<nat>, b: seq<Call>, stays: bool, quiet: bool, gentle: bool)
    requires CalledFor(CallOnConnect, now, h0, q0, a, quiet, gentle)
    requires if now == last then b == [] else CalledFor(Timeout, now, h1, q1, b, quiet, gentle)
    requires k in h0 && h0[k].uid !in q0 && (quiet ==> gentle)
    requires stays ==> k in h1 && h1[k].uid == h0[k].uid && h1[k].uid !in q1
    requires gentle && stays ==> h1[k].timeoutStart == h0[k].timeoutStart && h1[k].timeoutLimit == h0[k].timeoutLimit
    requires quiet && stays ==> h1[k].traits.connecting == h0[k].traits.connecting
    ensures Told(h0[k], a + b, stays, now, last, quiet, gentle)
  {
    var v := h0[k];
    if gentle && v.callOnConnect {
      assert Names(a, v.uid);
      var c :| c in a && c.uid == v.uid;
      assert c == OnConnect(v.uid);
    }
    if gentle && stays && Expired(v, now, last) {
      assert CallsFor(Timeout, h1[k], now) != [] && Names(b, v.uid);
      var c :| c in b && c.uid == v.uid;
      assert !c.OnConnect?;
    }
    if quiet {
      assert OnConnect(v.uid) in a <==> OnConnect(v.uid) in CallsFor(CallOnConnect, v, now);
      assert OnConnect(v.uid) !in b;
      assert OnTimeout(v.uid) !in a && OnConnectTimeout(v.uid) !in a;
    }
  }

  // ----- the same for all held sockets that are not queued -----

  ghost predicate AllTold(views: map<int, View>, queued: seq<nat>, more: seq<Call>, left: set<int>, now: int, last: int,
                          quiet: bool, gentle: bool)
  {
    forall k :: k in views && views[k].uid !in queued ==>
      Told(views[k], more, k !in left, now, last, quiet, gentle)
  }

  ghost predicate AllTreated(views: map<int, View>, queued: seq<nat>, after: map<int, View>, queuedAfter: seq<nat>,
                             now: int, last: int)
  {
    forall k :: k in after ==>
      (k in views && (views[k].uid !in queued ==>
         Treated(views[k], after[k], views[k].uid in queuedAfter, now, last) && Marked(views[k], after[k], now)))
  }

  /** After the first two checks. */
  ghost predicate CalledOn(v: View, r: View, now: int, last: int) {
    var u := After(CallOnConnect, v, now, v.fd);
    if now != last then r == After(Timeout, u, now, r.fd) else r == u
  }

  ghost predicate AllCalled(views: map<int, View>, queued: seq<nat>, after: map<int, View>, now: int, last: int) {
    forall k :: k in after ==> k in views && (views[k].uid !in queued ==> CalledOn(views[k], after[k], now, last))
  }

  ghost predicate NoneDetached(views: map<int, View>, queued: seq<nat>, keys: set<int>) {
    forall k :: k in keys && k in views && views[k].uid !in queued ==> !views[k].detach
  }

  lemma DetachKept(now: int, h0: map<int, View>, q: seq<nat>, h1: map<int, View>, keys: set<int>)
    requires Stepped(CallOnConnect, now, h0, q, h1, q)
    requires forall k :: k in keys && k in h0 && h0[k].uid !in q ==> k in h1 && !h1[k].detach
    ensures NoneDetached(h0, q, keys)
  {
    hide Leaves;
  }

  lemma RetryKept(h0: map<int, View>, q: seq<nat>, h2: map<int, View>, now: int, last: int)
    requires AllCalled(h0, q, h2, now, last)
    ensures forall k :: k in h2 && h0[k].uid !in q ==> h2[k].retry == h0[k].retry
  {
    hide CalledOn;
    forall k | k in h2 && h0[k].uid !in q
      ensures h2[k].retry == h0[k].retry
    {
      CalledKeepsRetry(h0[k], h2[k], now, last);
    }
  }

  lemma CalledKeepsRetry(v: View, r: View, now: int, last: int)
    requires CalledOn(v, r, now, last)
    ensures r.retry == v.retry
  {
  }

  lemma CalledLess(w: Work, now: int, views: map<int, View>, queued: seq<nat>, more: seq<Call>, quiet: bool,
                   gentle: bool,
                   quiet': bool, gentle': bool)
    requires CalledFor(w, now, views, queued, more, quiet, gentle) && (quiet' ==> quiet) && (gentle' ==> gentle)
    ensures CalledFor(w, now, views, queued, more, quiet', gentle')
  {
    hide CallsFor;
  }

  lemma CallingIs(now: int, last: int, h0: map<int, View>, q: seq<nat>, a: seq<Call>, h1: map<int, View>,
                  left: set<int>, h1': map<int, View>, b: seq<Call>, h2: map<int, View>, quiet: bool, gentle: bool)
    requires CalledFor(CallOnConnect, now, h0, q, a, quiet, gentle) && (quiet ==> gentle)
    requires h1.Keys == h0.Keys && h1' == h1 - left && h2.Keys == h1'.Keys
    requires forall k :: k in h1 ==> h1[k].uid == h0[k].uid
    requires gentle ==> forall k :: k in h1' ==>
      h1'[k].timeoutStart == h0[k].timeoutStart && h1'[k].timeoutLimit == h0[k].timeoutLimit
    requires quiet ==> Stepped(CallOnConnect, now, h0, q, h1, q)
    requires if now == last then b == [] else CalledFor(Timeout, now, h1', q, b, quiet, gentle)
    requires quiet ==> if now == last then h2 == h1' else Stepped(Timeout, now, h1', q, h2, q)
    ensures AllTold(h0, q, a + b, left, now, last, quiet, gentle) && AtMostOnce(a + b)
    ensures quiet ==> AllCalled(h0, q, h2, now, last)
  {
    hide CalledFor, Told;
    OnceInAll(now, h0, q, a, h1', q, b, quiet, gentle, quiet, gentle);
    hide AtMostOnce, Leaves;
    if quiet {
      forall k | k in h1' && h0[k].uid !in q
        ensures h1'[k] == After(CallOnConnect, h0[k], now, h0[k].fd)
        ensures h1'[k].traits.connecting == h0[k].traits.connecting
      {
        AfterConnect(h0[k], now, h1[k].fd);
        AfterConnect(h0[k], now, h0[k].fd);
      }
    }
    hide After, Stepped;
    forall k | k in h0 && h0[k].uid !in q
      ensures Told(h0[k], a + b, k !in left, now, last, quiet, gentle)
    {
      ToldBySteps(k, now, last, h0, q, a, h1', q, b, k !in left, quiet, gentle);
    }
  }

  lemma LeavingIs(now: int, last: int, h0: map<int, View>, q: seq<nat>, h2: map<int, View>, h3: map<int, View>,
                  q3: seq<nat>, h4: map<int, View>, q4: seq<nat>)
    requires AllCalled(h0, q, h2, now, last) && Stepped(Retry, now, h2, q, h3, q3) &&
      Stepped(Close, now, h3, q3, h4, q4)
    requires h2.Keys == h3.Keys == h4.Keys && forall k :: k in h2 ==> k in h0 && h2[k].uid == h0[k].uid == h3[k].uid
    ensures AllTreated(h0, q, h4, q4, now, last)
  {
    hide After, Leaves, Treated, Marked;
    forall k | k in h4 && h0[k].uid !in q
      ensures Treated(h0[k], h4[k], h0[k].uid in q4, now, last) && Marked(h0[k], h4[k], now)
    {
      var v1 := After(CallOnConnect, h0[k], now, h0[k].fd);
      AfterConnect(h0[k], now, h0[k].fd);
      AfterConnect(h0[k], now, v1.fd);
      TreatedBySteps(h0[k], v1, h2[k], h3[k], h4[k], h0[k].uid in q3, h0[k].uid in q4, now, last);
      MarkedBySteps(h0[k], v1, h2[k], h3[k], h4[k], h0[k].uid in q3, now, last);
    }
  }

  /** After a pass over the checks without callbacks: each socket that was `expected` was told what was due, and
      unless it was detached is what it should be, is held still or not, and is to be added anew or not. */
  ghost predicate Done(expected: map<int, View>, held: map<int, Socket>, looks: map<Socket, View>,
                       sockets: map<int, Socket>, add: seq<Socket>, left: set<int>, more: seq<Call>, now: int,
                       last: int)
  {
    forall k :: k in expected ==>
      && k in held && Told(expected[k], more, k !in left, now, last, true, true)
      && (k !in left ==>
            && held[k] in looks && Treated(expected[k], looks[held[k]], k !in sockets, now, last)
            && (expected[k].retry ==> held[k] in add))
  }

  lemma SameViews(h0: map<int, View>, h: map<int, View>)
    requires h0.Keys == h.Keys && forall k :: k in h ==> h[k] == h0[k]
    ensures h == h0
  {
    assert SeenAs(h, h0);
    SameSeen(h, h0);
  }

  lemma ExpectedStay(expected: map<int, View>, h: map<int, View>, q: seq<nat>, held: map<int, Socket>, left: set<int>,
                     keys: set<int>)
    requires AllHeld(expected, h, q) && NoneDetached(h, q, keys) && left == {}
    requires h.Keys == held.Keys && keys == (held - left).Keys
    ensures forall k :: k in expected ==> !expected[k].detach
  {
    assert (held - left).Keys == held.Keys;
  }

  lemma NoneExpected(views: map<int, View>, queued: seq<nat>)
    ensures AllHeld(map[], views, queued)
  {
  }

  lemma TreatedErased(v: View, r: View, r': View, left: bool, now: int, last: int)
    requires Treated(v, r, left, now, last) && r' == r.(erased := r'.erased)
    ensures Treated(v, r', left, now, last)
  {
  }

  lemma DoneIs(expected: map<int, View>, held: map<int, Socket>, h: map<int, View>, q: seq<nat>,
               mid: map<int, Socket>, h': map<int, View>, q': seq<nat>, looks: map<Socket, View>,
               sockets: map<int, Socket>, add: seq<Socket>, left: set<int>, more: seq<Call>, now: int, last: int)
    requires AllHeld(expected, h, q) && AllTold(h, q, more, left, now, last, true, true)
    requires AllTreated(h, q, h', q', now, last) && h.Keys == held.Keys && mid == held - left && h'.Keys == mid.Keys
    requires forall k :: k in held ==> h[k].uid == held[k].uid
    requires forall k :: k in mid ==> mid[k] in looks && looks[mid[k]] == h'[k].(erased := false)
    requires forall k :: k in mid && h[k].retry && h[k].uid !in q ==> mid[k] in add
    requires sockets == Without(mid, q')
    ensures Done(expected, held, looks, sockets, add, left, more, now, last)
  {
    hide Told, Treated;
    forall k | k in expected && k !in left
      ensures Treated(expected[k], looks[held[k]], k !in sockets, now, last)
    {
      TreatedErased(h[k], h'[k], looks[held[k]], h[k].uid in q', now, last);
    }
  }

  /** What is told of a socket that is more due later was due before. */
  lemma ToldEarlier(h0: map<int, View>, h: map<int, View>, q: seq<nat>, more: seq<Call>, left: set<int>, now: int,
                    last: int, quiet: bool)
    requires AllTold(h, q, more, left, now, last, quiet, true) && h0.Keys == h.Keys
    requires forall k :: k in h ==> h0[k].uid == h[k].uid && (h0[k].callOnConnect ==> h[k].callOnConnect)
    requires forall k :: k in h ==> h0[k].timeoutStart == h[k].timeoutStart && h0[k].timeoutLimit == h[k].timeoutLimit
    ensures AllTold(h0, q, more, left, now, last, false, true)
  {
  }

  /** What a check does to sockets that are not queued, if no callback interferes; those that are queued
      stay queued. */
  ghost predicate Stepped(w: Work, now: int, before: map<int, View>, queued: seq<nat>, after: map<int, View>,
                          queuedAfter: seq<nat>)
  {
    && after.Keys == before.Keys
    && (forall k :: k in before && before[k].uid !in queued ==>
          && after[k] == After(w, before[k], now, after[k].fd)
          && (before[k].uid in queuedAfter <==> Leaves(w, before[k], now)))
    && (forall k :: k in before && before[k].uid in queued ==>
          && (after[k] == before[k] || after[k] == After(w, before[k], now, after[k].fd))
          && before[k].uid in queuedAfter)
  }

  lemma ProgressSteps(w: Work, now: int, before: map<int, View>, queued: seq<nat>, after: map<int, View>,
                      queuedAfter: seq<nat>)
    requires Progress(w, {}, now, before, queued, after, queuedAfter)
    ensures Stepped(w, now, before, queued, after, queuedAfter)
  {
    hide After, Leaves;
  }

  ghost predicate Names(more: seq<Call>, uid: nat) { exists c :: c in more && c.uid == uid }

  /** The calls of a check for the sockets that are not queued. */
  ghost predicate CalledFor(w: Work, now: int, views: map<int, View>, queued: seq<nat>, more: seq<Call>, quiet: bool,
                            gentle: bool)
  {
    && (forall i, j :: 0 <= i < j < |more| ==> more[i].uid != more[j].uid)
    && (forall c :: c in more ==> (c.OnConnect? <==> w == CallOnConnect))
    && (w == CallOnConnect || w == Timeout || more == [])
    && (gentle ==> forall k :: k in views && views[k].uid !in queued && CallsFor(w, views[k], now) != [] ==>
          Names(more, views[k].uid))
    && (quiet ==> forall k, c: Call :: k in views && views[k].uid !in queued && c.uid == views[k].uid ==>
          (c in more <==> c in CallsFor(w, views[k], now)))
  }

  lemma IdleCalled(w: Work, now: int, views: map<int, View>, queued: seq<nat>, quiet: bool, gentle: bool)
    requires CalledFor(w, now, views, queued, [], true, true)
    ensures CalledFor(w, now, views, queued, [], quiet, gentle)
  {
  }

  lemma SeenBefore(w: Work, k: int, todo: set<int>, now: int, before: map<int, View>, queued: seq<nat>,
                   middle: map<int, View>, queuedThen: seq<nat>)
    requires Progress(w, todo + {k}, now, before, queued, middle, queuedThen) && k in middle
    ensures k in before && middle[k] == before[k]
  {
    hide After, Leaves;
  }

  /** What there was when a check began: what could be seen, queued and due, whether no callback or only
      gentle ones can interfere, the calls so far and the timeouts. */
  datatype Start = Start(views: map<int, View>, queued: seq<nat>, due: set<int>, quiet: bool, gentle: bool,
                         calls: seq<Call>, timers: map<Socket, (int, int)>, fields: Fields)

  /** The fields of the handler that a check leaves alone or appends to. */
  datatype Fields = Fields(population: seq<Socket>, sockets: map<int, Socket>, delete: seq<Socket>, maxsock: int,
                           add: seq<Socket>, queued: seq<nat>, scripts: nat)

  ghost function Masked(views: map<Socket, View>): map<Socket, View> {
    map p | p in views :: views[p].(erased := false)
  }

  /** But for the sockets that are named nothing has changed. */
  ghost predicate SameBut(uids: seq<nat>, after: map<Socket, View>, before: map<Socket, View>) {
    after.Keys == before.Keys && forall p :: p in after && p.uid !in uids ==> after[p] == before[p]
  }

  ghost predicate SeenAs(seen: map<int, View>, before: map<int, View>) {
    forall k :: k in seen ==> k in before && seen[k] == before[k]
  }

  lemma SameSeen(seen: map<int, View>, before: map<int, View>)
    requires SeenAs(seen, before) && seen.Keys == before.Keys
    ensures seen == before
  {
    forall k | k in seen
      ensures seen[k] == before[k]
    {
    }
    assert seen == before;
  }

  lemma NoneSeen(before: map<int, View>)
    ensures SeenAs(map[], before)
  {
  }

  /** Only these checks call the user for what a gentle callback leaves alone. */
  predicate MayBeGentle(w: Work, scripts: seq<seq<Deed>>) { Gentle(scripts) && (w == CallOnConnect || w == Timeout) }

  /** The calls of a check, by what it saw of the sockets: each is called for what it was, once at most. */
  ghost predicate Rings(w: Work, now: int, seen: map<int, View>, more: seq<Call>) {
    && (forall i, j :: 0 <= i < j < |more| ==> more[i].uid != more[j].uid)
    && (forall c :: c in more ==> exists k :: k in seen && seen[k].uid == c.uid)
    && (forall k, c: Call :: k in seen && c.uid == seen[k].uid ==> (c in more <==> c in CallsFor(w, seen[k], now)))
  }

  lemma RingOn(w: Work, now: int, seen: map<int, View>, more: seq<Call>, k: int, v: View)
    requires Rings(w, now, seen, more) && k !in seen && forall j :: j in seen ==> seen[j].uid != v.uid
    ensures Rings(w, now, seen[k := v], more + CallsFor(w, v, now))
  {
    var next, all := seen[k := v], more + CallsFor(w, v, now);
    assert next[k] == v;
    forall c | c in all
      ensures exists j :: j in next && next[j].uid == c.uid
    {
      if c in more {
        var j :| j in seen && seen[j].uid == c.uid;
        assert next[j] == seen[j];
      } else {
        assert next[k].uid == c.uid;
      }
    }
  }

  lemma ProgressOn(w: Work, k: int, todo: set<int>, now: int, before: map<int, View>, queued: seq<nat>,
                   middle: map<int, View>, queuedThen: seq<nat>, after: map<int, View>, queuedAfter: seq<nat>)
    requires Progress(w, todo + {k}, now, before, queued, middle, queuedThen) && k !in todo
    requires Did(w, k, now, middle, queuedThen, after, queuedAfter)
    requires forall i, j :: i in before && j in before && before[i].uid == before[j].uid ==> i == j
    ensures Progress(w, todo, now, before, queued, after, queuedAfter)
  {
    hide After, Leaves;
    assert middle[k] == before[k];
  }
}
