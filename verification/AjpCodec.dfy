/** The get_ and put_ functions of AjpBaseSocket, which move a pointer along a message. */
module AjpCodec {
  import opened Bytes
  import opened AjpFraming

  datatype Field = Byte(b: byte) | Boolean(x: bool) | Integer(n: int) | String(s: bytes)

  datatype Kind = ByteKind | BooleanKind | IntegerKind | StringKind

  function KindOf(f: Field): Kind {
    match f
    case Byte(_) => ByteKind
    case Boolean(_) => BooleanKind
    case Integer(_) => IntegerKind
    case String(_) => StringKind
  }

  /** A size cast to a short. */
  function AsShort(n: nat): (r: int)
    ensures -0x8000 <= r < 0x8000
  {
    (n + 0x8000) % 0x1_0000 - 0x8000
  }

  /** An integer is a short. */
  predicate Typed(f: Field) { f.Integer? ==> -0x8000 <= f.n < 0x8000 }

  /** The length of a string is put as a short. */
  predicate Fits(f: Field) { Typed(f) && (f.String? ==> |f.s| < 0x8000) }

  predicate AllTyped(fields: seq<Field>) { forall i :: 0 <= i < |fields| ==> Typed(fields[i]) }

  predicate AllFit(fields: seq<Field>) { forall i :: 0 <= i < |fields| ==> Fits(fields[i]) }

  /** The bytes of a field in a message. */
  function Encoded(f: Field): bytes
    requires Typed(f)
  {
    match f
    case Byte(b) => [b]
    case Boolean(x) => [if x then 1 else 0]
    case Integer(n) => ShortBytes(n)
    case String(s) => ShortBytes(AsShort(|s|)) + s + [0]
  }

  function AllEncoded(fields: seq<Field>): bytes
    requires AllTyped(fields)
  {
    if fields == [] then [] else Encoded(fields[0]) + AllEncoded(fields[1..])
  }

  /** Where a C string that begins at the start of the data ends, if it does. */
  function EndOf(data: bytes): (n: Option<nat>)
    ensures n.Some? ==> n.value < |data| && data[n.value] == 0 && forall j :: 0 <= j < n.value ==> data[j] != 0
    ensures n.None? ==> forall j :: 0 <= j < |data| ==> data[j] != 0
  {
    var n := IndexOf(data, 0);
    assert forall j :: 0 <= j < n ==> data[j] == data[..n][j];
    if n < |data| then Some(n) else None
  }

  /** std::string::resize. */
  function Resized(s: bytes, n: nat): (r: bytes)
    ensures |r| == n
  {
    if n <= |s| then s[..n] else s + seq(n - |s|, _ => 0)
  }

  /** What a get_ function returns and how far it moves; nothing if it runs out of the data, or meets a
      length below -1. */
  function Got(kind: Kind, data: bytes): (r: Option<(Field, nat)>)
    ensures r.Some? ==> KindOf(r.value.0) == kind
  {
    match kind
    case ByteKind => if |data| < 1 then None else Some((Byte(data[0]), 1))
    case BooleanKind => if |data| < 1 then None else Some((Boolean(data[0] % 2 == 1), 1))
    case IntegerKind => if |data| < 2 then None else Some((Integer(Short(data[0], data[1])), 2))
    case StringKind =>
      if |data| < 2 then None
      else
        var n := Short(data[0], data[1]);
        if n == -1 then Some((String([]), 2))
        else
          var end := EndOf(data[2..]);
          if n < 0 || end.None? then None
          else Some((String(Resized(data[2..2 + end.value], n)), 2 + n + 1))
  }

  function AllGot(kinds: seq<Kind>, data: bytes, at: nat): Option<(seq<Field>, nat)> {
    if kinds == [] then Some(([], at))
    else if at > |data| then None
    else
      match Got(kinds[0], data[at..])
      case None => None
      case Some(first) =>
        match AllGot(kinds[1..], data, at + first.1)
        case None => None
        case Some(rest) => Some(([first.0] + rest.0, rest.1))
  }

  /** What is left of a string that went through a message: after its first NUL only NULs. */
  function Cut(f: Field): Field {
    if f.String? then String(Resized(UpTo(f.s, 0), |f.s|)) else f
  }

  function AllCut(fields: seq<Field>): seq<Field> {
    if fields == [] then [] else [Cut(fields[0])] + AllCut(fields[1..])
  }

  function Kinds(fields: seq<Field>): seq<Kind> {
    if fields == [] then [] else [KindOf(fields[0])] + Kinds(fields[1..])
  }

  /** The first NUL of a string followed by a NUL. */
  lemma {:induction false} EndOfTerminated(s: bytes, rest: bytes)
    ensures EndOf(s + [0] + rest) == if EndOf(s).Some? then EndOf(s) else Some(|s|)
  {
    if s == [] {
      assert s + [0] + rest == [0] + rest;
    } else if s[0] != 0 {
      assert (s + [0] + rest)[1..] == s[1..] + [0] + rest;
      EndOfTerminated(s[1..], rest);
    }
  }

  /** What comes back of a string of any length: it goes by its length as a short. */
  lemma GotOfString(s: bytes, rest: bytes)
    ensures var n := AsShort(|s|);
      Got(StringKind, Encoded(String(s)) + rest) ==
        if n == -1 then Some((String([]), 2))
        else if n < 0 then None
        else Some((String(Resized(UpTo(s, 0), n)), 2 + n + 1))
  {
    hide ShortBytes, AsShort, Short, EndOf, Resized, UpTo;
    var n := AsShort(|s|);
    ShortOfBytes(n);
    Behind(ShortBytes(n), s, rest);
    EndOfTerminated(s, rest);
    UpToIs(s);
  }

  lemma UpToIs(s: bytes)
    ensures UpTo(s, 0) == if EndOf(s).Some? then s[..EndOf(s).value] else s[..|s|]
  {
  }

  /** The parts of an encoded string. */
  lemma Behind(length: bytes, s: bytes, rest: bytes)
    requires |length| == 2
    ensures var data := length + s + [0] + rest;
      && data[0] == length[0] && data[1] == length[1] && data[2..] == s + [0] + rest
      && forall i :: 0 <= i <= |s| ==> data[2..2 + i] == s[..i]
  {
    var data := length + s + [0] + rest;
    assert data[2..] == s + [0] + rest;
    forall i | 0 <= i <= |s| ensures data[2..2 + i] == s[..i] {
      assert data[2..2 + i] == data[2..][..i];
    }
  }

  lemma ShortOfBytes(n: int)
    requires -0x8000 <= n < 0x8000
    ensures |ShortBytes(n)| == 2 && Short(ShortBytes(n)[0], ShortBytes(n)[1]) == n
  {
  }

  /** The bytes of each kind of field, whatever follows them: any odd byte is true, numbers are in network order. */
  lemma OnTheWire(b: byte, n: int, hi: byte, lo: byte, rest: bytes)
    requires -0x8000 <= n < 0x8000 && InOrder(hi, lo, n)
    ensures Got(ByteKind, [b] + rest) == Some((Byte(b), 1)) && Encoded(Byte(b)) == [b]
    ensures Got(BooleanKind, [b] + rest) == Some((Boolean(exists k: nat :: b == 2 * k + 1), 1))
    ensures Encoded(Boolean(false)) == [0] && Encoded(Boolean(true)) == [1]
    ensures Got(IntegerKind, [hi, lo] + rest) == Some((Integer(n), 2)) && Encoded(Integer(n)) == [hi, lo]
    ensures Got(StringKind, [255, 255] + rest) == Some((String([]), 2))
  {
    assert b == 2 * (b / 2) + b % 2;
    NetworkOrder(n, hi, lo);
  }

  /** The bytes of a string without NULs: its length in network order, itself and a NUL. */
  lemma StringOnTheWire(hi: byte, lo: byte, s: bytes, rest: bytes)
    requires |s| == 256 * hi + lo < 0x8000 && EndOf(s).None?
    ensures Encoded(String(s)) == [hi, lo] + s + [0]
    ensures Got(StringKind, [hi, lo] + s + [0] + rest) == Some((String(s), |s| + 3))
  {
    hide Got, Resized, UpTo, EndOf, Encoded, AsShort;
    EncodedOf(hi, lo, s);
    ShortLength(|s|);
    GotOfString(s, rest);
    UpToIs(s);
    assert s[..|s|] == s;
    ResizedToItself(s);
  }

  lemma ShortLength(n: nat)
    requires n < 0x8000
    ensures AsShort(n) == n
  {
  }

  lemma EncodedOf(hi: byte, lo: byte, s: bytes)
    requires |s| == 256 * hi + lo < 0x8000
    ensures Encoded(String(s)) == [hi, lo] + s + [0]
  {
    hide ShortBytes, AsShort;
    ShortLength(|s|);
    NetworkOrder(|s|, hi, lo);
  }

  lemma ResizedToItself(s: bytes)
    ensures Resized(s, |s|) == s
  {
  }

  /** Whatever follows it, a field is read back, cut at its NUL, and the pointer is moved past it. */
  lemma GotOfEncoded(f: Field, rest: bytes)
    requires Fits(f)
    ensures Got(KindOf(f), Encoded(f) + rest) == Some((Cut(f), |Encoded(f)|))
  {
    if f.String? {
      hide Got, Encoded, EndOf, UpTo, Resized;
      GotOfString(f.s, rest);
      EncodedLength(f.s);
    } else {
      GotOfPlain(f, rest);
    }
  }

  lemma GotOfPlain(f: Field, rest: bytes)
    requires Typed(f) && !f.String?
    ensures Got(KindOf(f), Encoded(f) + rest) == Some((f, |Encoded(f)|))
  {
    hide EndOf, Resized, AsShort, ShortBytes, Short;
    var data := Encoded(f) + rest;
    assert data[0] == Encoded(f)[0];
    if f.Integer? {
      ShortOfBytes(f.n);
      assert data[1] == Encoded(f)[1];
    }
  }

  /** Any list of fields: what was put is got, and both pointers end at the same place. */
  lemma {:induction false} GetAfterPut(before: bytes, fields: seq<Field>, after: bytes)
    requires AllFit(fields)
    ensures AllGot(Kinds(fields), before + AllEncoded(fields) + after, |before|) ==
            Some((AllCut(fields), |before| + |AllEncoded(fields)|))
    decreases |fields|
  {
    hide Got, Cut, Encoded, KindOf;
    if fields != [] {
      var f, rest := fields[0], fields[1..];
      var data := before + AllEncoded(fields) + after;
      assert data[|before|..] == Encoded(f) + (AllEncoded(rest) + after);
      GotOfEncoded(f, AllEncoded(rest) + after);
      GetAfterPut(before + Encoded(f), rest, after);
      assert before + Encoded(f) + AllEncoded(rest) + after == data;
    }
  }

  /** A string comes back as it was put exactly if its length fits a short and nothing but NULs
      follows its first NUL. */
  lemma StringSurvivesIff(s: bytes, rest: bytes)
    ensures Got(StringKind, Encoded(String(s)) + rest) == Some((String(s), |Encoded(String(s))|)) <==>
      |s| < 0x8000 && forall i, j :: 0 <= i < j < |s| && s[i] == 0 ==> s[j] == 0
  {
    hide Got, Encoded;
    GotOfString(s, rest);
    assert |Encoded(String(s))| == 2 + |s| + 1 by { EncodedLength(s); }
    CutUnchangedIff(s);
  }

  lemma EncodedLength(s: bytes)
    ensures |Encoded(String(s))| == 2 + |s| + 1
  {
  }

  lemma CutUnchangedIff(s: bytes)
    ensures Cut(String(s)) == String(s) <==>
      forall i, j :: 0 <= i < j < |s| && s[i] == 0 ==> s[j] == 0
  {
    var n := |UpTo(s, 0)|;
    var zeros := seq(|s| - n, _ => 0);
    assert Cut(String(s)).s == s[..n] + zeros;
    assert s == s[..n] + s[n..];
    assert s[n..] == zeros <==> forall j :: n <= j < |s| ==> s[j] == 0;
    assert forall i :: 0 <= i < n ==> s[i] == s[..n][i];
  }

  /** From 65536 bytes on a wrong prefix comes back, and the pointer stops inside the string. */
  lemma LongStringComesBackShort(s: bytes, rest: bytes)
    requires 0x1_0000 <= |s| < 0x1_8000
    ensures var n := |s| - 0x1_0000;
      Got(StringKind, Encoded(String(s)) + rest) == Some((String(Resized(UpTo(s, 0), n)), n + 3))
  {
    hide Got, Encoded;
    GotOfString(s, rest);
  }

  lemma CopiedTwice(data: bytes, at: nat, s: bytes, t: bytes)
    requires at + |s| + |t| <= |data|
    ensures Copied(Copied(data, at, s), at + |s|, t) == Copied(data, at, s + t)
  {
  }

  method PutByte(buf: array<byte>, ptr: nat, zz: byte) returns (next: nat)
    requires ptr < buf.Length
    modifies buf
    ensures buf[..] == Copied(old(buf[..]), ptr, Encoded(Byte(zz))) && next == ptr + 1
  {
    buf[ptr] := zz;
    next := ptr + 1;
  }

  method PutBoolean(buf: array<byte>, ptr: nat, zz: bool) returns (next: nat)
    requires ptr < buf.Length
    modifies buf
    ensures buf[..] == Copied(old(buf[..]), ptr, Encoded(Boolean(zz))) && next == ptr + 1
  {
    buf[ptr] := if zz then 1 else 0;
    next := ptr + 1;
  }

  method PutInteger(buf: array<byte>, ptr: nat, zz: int) returns (next: nat)
    requires ptr + 2 <= buf.Length && -0x8000 <= zz < 0x8000
    modifies buf
    ensures buf[..] == Copied(old(buf[..]), ptr, Encoded(Integer(zz))) && next == ptr + 2
  {
    var tmp := ShortBytes(zz);
    buf[ptr], buf[ptr + 1] := tmp[0], tmp[1];
    next := ptr + 2;
  }

  method PutString(buf: array<byte>, ptr: nat, zz: bytes) returns (next: nat)
    requires ptr + 2 + |zz| + 1 <= buf.Length
    modifies buf
    ensures buf[..] == Copied(old(buf[..]), ptr, Encoded(String(zz))) && next == ptr + |Encoded(String(zz))|
  {
    hide Copied, ShortBytes;
    ghost var data := buf[..];
    next := PutInteger(buf, ptr, AsShort(|zz|));
    CopyTo(buf, next, zz);
    next := next + |zz|;
    CopiedTwice(data, ptr, ShortBytes(AsShort(|zz|)), zz);
    CopiedTwice(data, ptr, ShortBytes(AsShort(|zz|)) + zz, [0]);
    next := PutByte(buf, next, 0);
  }

  method CopyTo(buf: array<byte>, ptr: nat, s: bytes)
    requires ptr + |s| <= buf.Length
    modifies buf
    ensures buf[..] == Copied(old(buf[..]), ptr, s)
  {
    forall k | 0 <= k < |s| {
      buf[ptr + k] := s[k];
    }
  }

  method GetInteger(buf: array<byte>, ptr: nat) returns (n: int, next: nat)
    requires ptr + 2 <= buf.Length
    ensures Got(IntegerKind, buf[ptr..]) == Some((Integer(n), next - ptr))
  {
    n := Short(buf[ptr], buf[ptr + 1]);
    next := ptr + 2;
  }

  /** A string constructed from a pointer to chars: everything up to the NUL. */
  method CString(buf: array<byte>, ptr: nat) returns (ok: bool, s: bytes)
    requires ptr <= buf.Length
    ensures ok <==> EndOf(buf[ptr..]).Some?
    ensures ok ==> s == buf[ptr..][..EndOf(buf[ptr..]).value]
  {
    var i := ptr;
    while i < buf.Length && buf[i] != 0
      invariant ptr <= i <= buf.Length && forall j :: ptr <= j < i ==> buf[j] != 0
    {
      i := i + 1;
    }
    ok := i < buf.Length;
    s := buf[ptr..i];
    ghost var data := buf[ptr..];
    assert forall j :: 0 <= j < |data| ==> data[j] == buf[ptr + j];
    if ok {
      assert data[i - ptr] == 0;
      assert EndOf(data).value == i - ptr;
      assert data[..i - ptr] == s;
    }
  }

  method GetString(buf: array<byte>, ptr: nat) returns (ok: bool, s: bytes, next: nat)
    requires ptr + 2 <= buf.Length
    ensures Got(StringKind, buf[ptr..]) == if ok then Some((String(s), next - ptr)) else None
  {
    var n, p := GetInteger(buf, ptr);
    assert buf[ptr..][2..] == buf[p..];
    if n == -1 {
      return true, [], p;
    }
    var tmp;
    ok, tmp := CString(buf, p);
    if n < 0 {
      return false, [], ptr;
    }
    s := Resized(tmp, n);
    next := p + n + 1;
    assert ok ==> buf[ptr..][2..2 + |tmp|] == tmp;
  }
}
