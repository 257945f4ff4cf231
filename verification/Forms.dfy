/** Url-encoded forms: HttpPostSocket builds them, HttpdForm takes them apart. */
module Forms {
  import opened Bytes
  import opened UrlCode

  const EQUALS: byte := 61
  const AMPERSAND: byte := 38

  /** HttpdForm::CGI. */
  datatype Entry = Entry(name: bytes, value: bytes)

  /** The variables of the decoders. */
  datatype State = State(slask: bytes, name: bytes, gotName: bool, cgi: seq<Entry>)

  const START := State([], [], false, [])

  function Closed(st: State): seq<Entry> {
    st.cgi + [if st.gotName then Entry(st.name, st.slask) else Entry(st.slask, [])]
  }

  /** Any character but the percent sign. */
  function Put(st: State, c: byte): State {
    if c == EQUALS then st.(name := st.slask, slask := [], gotName := true)
    else if c == AMPERSAND then st.(cgi := Closed(st), slask := [], gotName := false)
    else st.(slask := st.slask + [if c == PLUS then SPACE else c])
  }

  /** The character at an index. A string has a NUL at its end; past that, and past the end of a file,
      there is nothing to be read. */
  function CharAt(data: bytes, i: nat, nul: bool): Option<byte> {
    if i < |data| then Some(data[i])
    else if nul && i == |data| then Some(0)
    else None
  }

  /** From index `at` to `l`; None if it takes a digit that is not there. `nul` for a string. */
  function Scan(data: bytes, at: nat, l: nat, nul: bool, st: State): Option<State>
    requires l <= |data|
    decreases l - at
  {
    if at >= l then Some(st)
    else if data[at] == PERCENT then
      var hi, lo := CharAt(data, at + 1, nul), CharAt(data, at + 2, nul);
      if hi.None? || lo.None? then None
      else Scan(data, at + 3, l, nul, st.(slask := st.slask + [Escape(hi.value, lo.value)]))
    else Scan(data, at + 1, l, nul, Put(st, data[at]))
  }

  function Parsed(data: bytes, l: nat, nul: bool): Option<seq<Entry>>
    requires l <= |data|
  {
    match Scan(data, 0, l, nul, START)
    case None => None
    case Some(st) => Some(Closed(st))
  }

  /** Every percent sign has two characters after it. */
  predicate Complete(data: bytes, at: nat, l: nat)
    requires l <= |data|
    decreases l - at
  {
    if at >= l then true
    else if data[at] == PERCENT then at + 2 < |data| && Complete(data, at + 3, l)
    else Complete(data, at + 1, l)
  }

  /** The decoder of files works exactly on bodies with complete escapes, and there the decoder of
      strings agrees with it. */
  lemma {:induction false} DecodersAgree(data: bytes, at: nat, l: nat, st: State)
    requires l <= |data|
    ensures Scan(data, at, l, false, st).Some? <==> Complete(data, at, l)
    ensures Complete(data, at, l) ==> Scan(data, at, l, true, st) == Scan(data, at, l, false, st)
    decreases l - at
  {
    if at < l {
      if data[at] != PERCENT {
        DecodersAgree(data, at + 1, l, Put(st, data[at]));
      } else if at + 2 < |data| {
        DecodersAgree(data, at + 3, l, st.(slask := st.slask + [Escape(data[at + 1], data[at + 2])]));
      }
    }
  }

  /** One missing digit is a NUL to the decoder of strings: a body that ends in "%4" gives a form. */
  lemma StringsAllowOneDigitLess(hi: byte)
    ensures Parsed([PERCENT, hi], 2, false).None?
    ensures Parsed([PERCENT, hi], 2, true) == Some([Entry([Escape(hi, 0)], [])])
  {
    var st := START.(slask := [] + [Escape(hi, 0)]);
    assert st.slask == [Escape(hi, 0)];
    assert Scan([PERCENT, hi], 3, 2, true, st) == Some(st);
    assert Closed(st) == [Entry([Escape(hi, 0)], [])];
  }

  method ParseQueryString(buffer: bytes, l: nat) returns (cgi: Option<seq<Entry>>)
    requires l <= |buffer|
    ensures cgi == Parsed(buffer, l, true)
  {
    var st := START;
    var ptr := 0;
    while ptr < l
      invariant Scan(buffer, ptr, l, true, st) == Scan(buffer, 0, l, true, START)
      decreases l - ptr
    {
      var c := buffer[ptr];
      ptr := ptr + 1;
      if c == PERCENT {
        var hi, lo := CharAt(buffer, ptr, true), CharAt(buffer, ptr + 1, true);
        if hi.None? || lo.None? {
          return None;
        }
        ptr := ptr + 2;
        st := st.(slask := st.slask + [Escape(hi.value, lo.value)]);
      } else {
        st := Put(st, c);
      }
    }
    cgi := Some(Closed(st));
  }

  /** A file that is read a character at a time. */
  class File {
    const data: bytes
    var pos: nat
    var eof: bool

    constructor (data: bytes)
      ensures this.data == data && pos == 0 && !eof
    {
      this.data, pos, eof := data, 0, false;
    }

    /** fread(&c, 1, 1). */
    method Read() returns (c: Option<byte>)
      requires pos <= |data|
      modifies this
      ensures c == CharAt(data, old(pos), false) && eof == (old(eof) || c.None?)
      ensures pos == if c.Some? then old(pos) + 1 else old(pos)
    {
      if pos < |data| {
        c := Some(data[pos]);
        pos := pos + 1;
      } else {
        c := None;
        eof := true;
      }
    }
  }

  /** A content length, cast to a 32-bit int. */
  function AsInt(n: nat): int {
    var u := n % 0x1_0000_0000;
    if u >= 0x8000_0000 then u - 0x1_0000_0000 else u
  }

  /** How much of a file is read as the body. */
  function Limit(contentLength: nat, size: nat): (l: nat)
    ensures l <= size
  {
    var n := AsInt(contentLength);
    if n < 0 then 0 else if n <= size then n else size
  }

  /** The content length ends the body, if the file does not; lengths of 2 GB and more are negative. */
  lemma LimitIs(contentLength: nat, size: nat)
    ensures contentLength <= 0x7fff_ffff ==>
      Limit(contentLength, size) == if contentLength < size then contentLength else size
    ensures 0x8000_0000 <= contentLength <= 0xffff_ffff ==> Limit(contentLength, size) == 0
    ensures Limit(contentLength + 0x1_0000_0000, size) == Limit(contentLength, size)
  {
  }

  /** The url-encoded branch of ParseFormData. */
  method ParseFormData(infil: File, contentLength: nat) returns (cgi: Option<seq<Entry>>)
    requires infil.pos == 0 && !infil.eof
    modifies infil
    ensures cgi == Parsed(infil.data, Limit(contentLength, |infil.data|), false)
  {
    ghost var data := infil.data;
    ghost var l := Limit(contentLength, |data|);
    var cl := AsInt(contentLength);
    var st := START;
    var c := infil.Read();
    cl := cl - 1;
    ghost var at := 0;
    while cl >= 0 && !infil.eof
      invariant infil.data == data && at <= infil.pos <= |data|
      invariant Scan(data, at, l, false, st) == Scan(data, 0, l, false, START)
      invariant cl >= 0 && !infil.eof ==> at < l && infil.pos == at + 1 && c == Some(data[at])
      invariant cl >= 0 && !infil.eof ==> cl == AsInt(contentLength) - 1 - at
      invariant !(cl >= 0 && !infil.eof) ==> at >= l
      decreases cl
    {
      if c.value == PERCENT {
        var hi := infil.Read();
        var lo := infil.Read();
        cl := cl - 2;
        at := at + 3;
        if hi.None? || lo.None? {
          return None;
        }
        st := st.(slask := st.slask + [Escape(hi.value, lo.value)]);
      } else {
        st := Put(st, c.value);
        at := at + 1;
      }
      if cl > 0 {
        c := infil.Read();
      }
      cl := cl - 1;
    }
    cgi := Some(Closed(st));
  }

  const CRLF: bytes := [13, 10]
  const ENCODED_CRLF: bytes := [PERCENT, 48, 100, PERCENT, 48, 97]    // %0d%0a

  /** A field of m_fields, with its lines. */
  datatype Field = Field(name: bytes, values: seq<bytes>)

  function EncodedLines(values: seq<bytes>): bytes {
    if values == [] then []
    else if |values| == 1 then Encoded(values[0])
    else Encoded(values[0]) + ENCODED_CRLF + EncodedLines(values[1..])
  }

  function FieldBody(f: Field): bytes { f.name + [EQUALS] + EncodedLines(f.values) }

  /** What OnConnect sends. */
  function Body(fields: seq<Field>): (b: bytes)
    ensures b == [] <==> fields == []
  {
    if fields == [] then []
    else if |fields| == 1 then FieldBody(fields[0])
    else FieldBody(fields[0]) + [AMPERSAND] + Body(fields[1..])
  }

  /** The body of two fields, one of them with two lines, in characters. */
  lemma BodyOfTwo(a: bytes, x: bytes, b: bytes, y: bytes, z: bytes)
    ensures Body([Field(a, [x]), Field(b, [y, z])]) ==
      a + ['=' as int] + Encoded(x) + ['&' as int] + b + ['=' as int] + Encoded(y)
      + ['%' as int, '0' as int, 'd' as int, '%' as int, '0' as int, 'a' as int] + Encoded(z)
  {
    hide Encoded;
    var f, g := Field(a, [x]), Field(b, [y, z]);
    assert [f, g][1..] == [g] && [y, z][1..] == [z];
    assert FieldBody(f) == a + [EQUALS] + Encoded(x);
    assert EncodedLines([y, z]) == Encoded(y) + ENCODED_CRLF + Encoded(z);
    assert Body([g]) == FieldBody(g) == b + [EQUALS] + (Encoded(y) + ENCODED_CRLF + Encoded(z));
    Flat(FieldBody(f) + [AMPERSAND], b + [EQUALS], Encoded(y), ENCODED_CRLF, Encoded(z));
  }

  lemma Flat(p: bytes, q: bytes, y: bytes, c: bytes, z: bytes)
    ensures p + (q + (y + c + z)) == p + q + y + c + z
  {
  }

  lemma {:induction false} LinesEnd(values: seq<bytes>, value: bytes)
    ensures EncodedLines(values + [value]) ==
      if values == [] then Encoded(value) else EncodedLines(values) + ENCODED_CRLF + Encoded(value)
  {
    hide Encoded;
    if values != [] {
      assert (values + [value])[1..] == values[1..] + [value];
      LinesEnd(values[1..], value);
      if |values| > 1 {
        assert Encoded(values[0]) + ENCODED_CRLF + (EncodedLines(values[1..]) + ENCODED_CRLF + Encoded(value)) ==
               EncodedLines(values) + ENCODED_CRLF + Encoded(value);
      } else {
        assert values[1..] == [];
      }
    }
  }

  lemma {:induction false} BodyEnd(fields: seq<Field>, f: Field)
    ensures Body(fields + [f]) == if fields == [] then FieldBody(f) else Body(fields) + [AMPERSAND] + FieldBody(f)
  {
    hide FieldBody;
    if fields != [] {
      assert (fields + [f])[1..] == fields[1..] + [f];
      BodyEnd(fields[1..], f);
      if |fields| > 1 {
        assert FieldBody(fields[0]) + [AMPERSAND] + (Body(fields[1..]) + [AMPERSAND] + FieldBody(f)) ==
               Body(fields) + [AMPERSAND] + FieldBody(f);
      } else {
        assert fields[1..] == [];
      }
    }
  }

  /** The lines of a value, appended to the body. */
  method AppendLines(start: bytes, values: seq<bytes>) returns (body: bytes)
    ensures body == start + EncodedLines(values)
  {
    hide Encoded, EncodedLines;
    body := start;
    var first := true;
    LinesOfNone();
    for i := 0 to |values|
      invariant first == (i == 0) && body == start + EncodedLines(values[..i])
    {
      LinesEnd(values[..i], values[i]);
      assert values[..i + 1] == values[..i] + [values[i]];
      if !first {
        body := body + ENCODED_CRLF;
      }
      var value := Encode(values[i]);
      body := body + value;
      first := false;
    }
    assert values[..|values|] == values;
  }

  lemma LinesOfNone()
    ensures EncodedLines([]) == []
  {
  }

  method AppendField(start: bytes, f: Field) returns (body: bytes)
    ensures body == start + FieldBody(f)
  {
    hide EncodedLines;
    body := start + f.name + [EQUALS];
    body := AppendLines(body, f.values);
  }

  method BuildBody(fields: seq<Field>) returns (body: bytes)
    ensures body == Body(fields)
  {
    hide Body, FieldBody;
    body := [];
    for i := 0 to |fields|
      invariant body == Body(fields[..i])
    {
      BodyEnd(fields[..i], fields[i]);
      assert fields[..i + 1] == fields[..i] + [fields[i]];
      if |body| > 0 {
        body := body + [AMPERSAND];
      }
      body := AppendField(body, fields[i]);
    }
    assert fields[..|fields|] == fields;
  }

  /** The lines of a value, as the receiver has them. */
  function Joined(values: seq<bytes>): bytes {
    if values == [] then []
    else if |values| == 1 then values[0]
    else values[0] + CRLF + Joined(values[1..])
  }

  function Entries(fields: seq<Field>): seq<Entry> {
    if fields == [] then [] else [Entry(fields[0].name, Joined(fields[0].values))] + Entries(fields[1..])
  }

  predicate Plain(c: byte) { c != EQUALS && c != AMPERSAND && c != PLUS && c != PERCENT }

  predicate Clean(name: bytes) { forall i :: 0 <= i < |name| ==> Plain(name[i]) }

  predicate AllClean(fields: seq<Field>) { forall i :: 0 <= i < |fields| ==> Clean(fields[i].name) }

  /** `s` stands in the data at an index. */
  predicate At(data: bytes, at: nat, s: bytes) { at + |s| <= |data| && data[at..at + |s|] == s }

  lemma AtParts(data: bytes, at: nat, s: bytes, t: bytes)
    requires At(data, at, s + t)
    ensures At(data, at, s) && At(data, at + |s|, t)
  {
    assert s == (s + t)[..|s|] && t == (s + t)[|s|..];
  }

  lemma {:induction false} ScanPlain(data: bytes, at: nat, s: bytes, nul: bool, st: State)
    requires At(data, at, s) && Clean(s)
    ensures Scan(data, at, |data|, nul, st) == Scan(data, at + |s|, |data|, nul, st.(slask := st.slask + s))
    decreases |s|
  {
    if s == [] {
      assert st.slask + s == st.slask;
    } else {
      assert data[at] == s[0] && data[at + 1..at + |s|] == s[1..];
      ScanPlain(data, at + 1, s[1..], nul, Put(st, s[0]));
      assert st.slask + [s[0]] + s[1..] == st.slask + s;
    }
  }

  lemma ScanEscape(data: bytes, at: nat, hi: byte, lo: byte, nul: bool, st: State)
    requires At(data, at, [PERCENT, hi, lo])
    ensures Scan(data, at, |data|, nul, st) ==
            Scan(data, at + 3, |data|, nul, st.(slask := st.slask + [Escape(hi, lo)]))
  {
    var s := data[at..at + 3];
    assert data[at] == s[0] && data[at + 1] == s[1] && data[at + 2] == s[2];
  }

  lemma ScanEncodedChar(data: bytes, at: nat, c: byte, nul: bool, st: State)
    requires At(data, at, EncodedChar(c))
    ensures Scan(data, at, |data|, nul, st) ==
            Scan(data, at + |EncodedChar(c)|, |data|, nul, st.(slask := st.slask + [c]))
  {
    var s := EncodedChar(c);
    assert data[at] == data[at..at + |s|][0] == s[0];
    if |s| == 3 {
      ScanEscape(data, at, s[1], s[2], nul, st);
    }
  }

  lemma {:induction false} ScanEncoded(data: bytes, at: nat, value: bytes, nul: bool, st: State)
    requires At(data, at, Encoded(value))
    ensures Scan(data, at, |data|, nul, st) ==
            Scan(data, at + |Encoded(value)|, |data|, nul, st.(slask := st.slask + value))
    decreases |value|
  {
    hide Scan, EncodedChar;
    if value == [] {
      assert st.slask + value == st.slask;
    } else {
      var c := value[0];
      AtParts(data, at, EncodedChar(c), Encoded(value[1..]));
      ScanEncodedChar(data, at, c, nul, st);
      ScanEncoded(data, at + |EncodedChar(c)|, value[1..], nul, st.(slask := st.slask + [c]));
      assert st.slask + [c] + value[1..] == st.slask + value;
    }
  }

  lemma ScanCrlf(data: bytes, at: nat, nul: bool, st: State)
    requires At(data, at, ENCODED_CRLF)
    ensures Scan(data, at, |data|, nul, st) == Scan(data, at + 6, |data|, nul, st.(slask := st.slask + CRLF))
  {
    hide Scan;
    assert ENCODED_CRLF == [PERCENT, 48, 100] + [PERCENT, 48, 97];
    AtParts(data, at, [PERCENT, 48, 100], [PERCENT, 48, 97]);
    ScanEscape(data, at, 48, 100, nul, st);
    ScanEscape(data, at + 3, 48, 97, nul, st.(slask := st.slask + [13]));
    assert st.slask + [13] + [10] == st.slask + CRLF;
  }

  lemma {:induction false} ScanLines(data: bytes, at: nat, values: seq<bytes>, nul: bool, st: State)
    requires At(data, at, EncodedLines(values))
    ensures Scan(data, at, |data|, nul, st) ==
            Scan(data, at + |EncodedLines(values)|, |data|, nul, st.(slask := st.slask + Joined(values)))
    decreases |values|
  {
    hide Scan, Encoded, At;
    if values == [] {
      assert st.slask + [] == st.slask;
    } else if |values| == 1 {
      ScanEncoded(data, at, values[0], nul, st);
    } else {
      var first, rest := Encoded(values[0]), EncodedLines(values[1..]);
      assert EncodedLines(values) == first + (ENCODED_CRLF + rest);
      AtParts(data, at, first, ENCODED_CRLF + rest);
      AtParts(data, at + |first|, ENCODED_CRLF, rest);
      ScanEncoded(data, at, values[0], nul, st);
      var st1 := st.(slask := st.slask + values[0]);
      ScanCrlf(data, at + |first|, nul, st1);
      var st2 := st1.(slask := st1.slask + CRLF);
      ScanLines(data, at + |first| + 6, values[1..], nul, st2);
      assert st2.slask + Joined(values[1..]) == st.slask + Joined(values);
    }
  }

  lemma ScanOne(data: bytes, at: nat, c: byte, nul: bool, st: State)
    requires At(data, at, [c]) && c != PERCENT
    ensures Scan(data, at, |data|, nul, st) == Scan(data, at + 1, |data|, nul, Put(st, c))
  {
    assert data[at] == data[at..at + 1][0];
  }

  lemma ScanEnd(data: bytes, nul: bool, st: State)
    ensures Scan(data, |data|, |data|, nul, st) == Some(st)
  {
  }

  /** A field with a clean name is taken as it was given. */
  lemma ScanField(data: bytes, at: nat, f: Field, nul: bool, st: State)
    requires At(data, at, FieldBody(f)) && Clean(f.name) && st.slask == [] && !st.gotName
    ensures Scan(data, at, |data|, nul, st) ==
            Scan(data, at + |FieldBody(f)|, |data|, nul, State(Joined(f.values), f.name, true, st.cgi))
  {
    hide Scan, EncodedLines, Joined, At;
    var lines := EncodedLines(f.values);
    assert FieldBody(f) == f.name + ([EQUALS] + lines);
    AtParts(data, at, f.name, [EQUALS] + lines);
    AtParts(data, at + |f.name|, [EQUALS], lines);
    ScanPlain(data, at, f.name, nul, st);
    assert st.slask + f.name == f.name;
    var i := at + |f.name|;
    ScanOne(data, i, EQUALS, nul, st.(slask := f.name));
    ScanLines(data, i + 1, f.values, nul, State([], f.name, true, st.cgi));
    assert [] + Joined(f.values) == Joined(f.values);
  }

  lemma {:induction false} ScanBody(data: bytes, at: nat, fields: seq<Field>, nul: bool, st: State)
    requires fields != [] && at + |Body(fields)| == |data| && At(data, at, Body(fields))
    requires AllClean(fields) && st.slask == [] && !st.gotName
    ensures var end := Scan(data, at, |data|, nul, st);
      end.Some? && Closed(end.value) == st.cgi + Entries(fields)
    decreases |fields|
  {
    hide FieldBody, Joined, Scan, At;
    var f := fields[0];
    if |fields| == 1 {
      ScanEnd(data, nul, State(Joined(f.values), f.name, true, st.cgi));
      ScanField(data, at, f, nul, st);
      assert Entries(fields) == [Entry(f.name, Joined(f.values))];
    } else {
      var first, rest := FieldBody(f), Body(fields[1..]);
      assert Body(fields) == first + ([AMPERSAND] + rest);
      AtParts(data, at, first, [AMPERSAND] + rest);
      AtParts(data, at + |first|, [AMPERSAND], rest);
      ScanField(data, at, f, nul, st);
      var i := at + |first|;
      ScanOne(data, i, AMPERSAND, nul, State(Joined(f.values), f.name, true, st.cgi));
      var next := Put(State(Joined(f.values), f.name, true, st.cgi), AMPERSAND);
      ScanBody(data, i + 1, fields[1..], nul, next);
      assert next.cgi + Entries(fields[1..]) == st.cgi + Entries(fields);
    }
  }

  /** Any fields with clean names come back with their lines joined, from a file or from a string. */
  lemma ParseAfterBuild(fields: seq<Field>, nul: bool)
    requires fields != [] && AllClean(fields)
    ensures Parsed(Body(fields), |Body(fields)|, nul) == Some(Entries(fields))
  {
    var data := Body(fields);
    assert data[0..|data|] == data;
    ScanBody(data, 0, fields, nul, START);
    assert [] + Entries(fields) == Entries(fields);
  }

  /** No fields at all come back as one without a name. */
  lemma NoFieldsAreOne(nul: bool)
    ensures Parsed(Body([]), 0, nul) == Some([Entry([], [])])
  {
    assert Scan(Body([]), 0, 0, nul, START) == Some(START);
    assert Closed(START) == [Entry([], [])];
  }

  lemma {:induction false} LinesAreUnreserved(values: seq<bytes>)
    ensures forall i :: 0 <= i < |EncodedLines(values)| ==> Unreserved(EncodedLines(values)[i])
    ensures EncodedLines(values) == [] <==> Joined(values) == []
  {
    hide Encoded;
    if values != [] {
      EncodedIsUnreserved(values[0]);
      EncodedOfNone(values[0]);
      LinesAreUnreserved(values[1..]);
    }
  }

  lemma EncodedOfNone(s: bytes)
    ensures Encoded(s) == [] <==> s == []
  {
  }

  lemma {:induction false} EncodedIsComplete(s: bytes, k: nat)
    requires k < |Encoded(s)| && Encoded(s)[k] == PERCENT
    ensures k + 2 < |Encoded(s)|
  {
    var n := |EncodedChar(s[0])|;
    if k >= n { EncodedIsComplete(s[1..], k - n); }
  }

  /** Every percent sign in the lines has its two digits. */
  lemma {:induction false} LinesAreComplete(values: seq<bytes>, k: nat)
    requires k < |EncodedLines(values)| && EncodedLines(values)[k] == PERCENT
    ensures k + 2 < |EncodedLines(values)|
  {
    hide Encoded;
    var n := |Encoded(values[0])|;
    if k < n {
      EncodedIsComplete(values[0], k);
    } else if k >= n + 6 {
      LinesAreComplete(values[1..], k - n - 6);
    }
  }

  // ----- exactly when a form survives -----

  /** Up to offset `o` of a field the decoder has what was given, and nothing in it was special. */
  predicate OnTrack(name: bytes, o: nat, st: State) {
    if o <= |name| then !st.gotName && st.slask == name[..o] && Clean(name[..o]) else Clean(name)
  }

  /** The entry in progress at offset `o` of a field can no longer end up as the field; `bare` if it
      has no value. */
  predicate Off(name: bytes, bare: bool, o: nat, st: State) {
    if st.gotName then st.name != name && |st.slask| < o
    else if o <= |name| then |st.slask| < o || (|st.slask| == o && st.slask != name[..o])
    else |st.slask| + 2 <= o && (bare ==> st.slask != name)
  }

  /** What is known at offset `o` of field number `j`: fewer entries than fields, or the entry in progress
      is on track or off, or the entry for the field is wrong. */
  predicate InField(f: Field, j: nat, clean: bool, o: nat, st: State) {
    || |st.cgi| < j
    || (|st.cgi| == j && (Off(f.name, EncodedLines(f.values) == [], o, st) || (clean && OnTrack(f.name, o, st))))
    || (|st.cgi| > j && st.cgi[j] != Entry(f.name, Joined(f.values)))
  }

  lemma EscapedEquals()
    ensures Escape(EQUALS, 0) != PERCENT && Escape(EQUALS, AMPERSAND) != PERCENT
  {
  }

  /** The character at an offset of a field. */
  lemma FieldChar(f: Field, o: nat)
    requires o < |FieldBody(f)|
    ensures o < |f.name| ==> FieldBody(f)[o] == f.name[o]
    ensures o == |f.name| ==> FieldBody(f)[o] == EQUALS
    ensures o > |f.name| ==> Unreserved(FieldBody(f)[o])
    ensures FieldBody(f)[o] == PERCENT ==> o + 2 < |FieldBody(f)| || (o + 2 == |FieldBody(f)| && o + 1 == |f.name|)
    ensures |FieldBody(f)| == |f.name| + 1 + |EncodedLines(f.values)|
  {
    hide EncodedLines;
    LinesAreUnreserved(f.values);
    if o > |f.name| {
      var k := o - |f.name| - 1;
      assert FieldBody(f)[o] == EncodedLines(f.values)[k];
      if FieldBody(f)[o] == PERCENT { LinesAreComplete(f.values, k); }
    }
  }

  lemma PutInField(f: Field, j: nat, clean: bool, o: nat, st: State)
    requires o < |FieldBody(f)| && FieldBody(f)[o] != PERCENT && InField(f, j, clean, o, st)
    ensures InField(f, j, clean, o + 1, Put(st, FieldBody(f)[o])) && st.cgi <= Put(st, FieldBody(f)[o]).cgi
  {
    hide EncodedLines, Joined, FieldBody;
    FieldChar(f, o);
    var name := f.name;
    if o < |name| {
      assert name[..o + 1] == name[..o] + [name[o]];
    } else {
      assert name[..|name|] == name;
    }
  }

  lemma EscapeInField(f: Field, j: nat, clean: bool, o: nat, st: State, lo: byte)
    requires o < |FieldBody(f)| && FieldBody(f)[o] == PERCENT && InField(f, j, clean, o, st)
    requires if o + 2 < |FieldBody(f)| then lo == FieldBody(f)[o + 2] else lo == 0 || lo == AMPERSAND
    ensures o + 1 < |FieldBody(f)| && o + 2 <= |FieldBody(f)|
    ensures InField(f, j, clean, o + 3, st.(slask := st.slask + [Escape(FieldBody(f)[o + 1], lo)]))
  {
    hide EncodedLines, Joined, FieldBody, Escape;
    FieldChar(f, o);
    FieldChar(f, o + 1);
    EscapedEquals();
  }

  /** Scan up to an index before the end: where it stops, and with what. */
  function Walk(data: bytes, at: nat, end: nat, nul: bool, st: State): Option<(nat, State)>
    requires end <= |data|
    decreases end - at
  {
    if at >= end then Some((at, st))
    else if data[at] == PERCENT then
      var hi, lo := CharAt(data, at + 1, nul), CharAt(data, at + 2, nul);
      if hi.None? || lo.None? then None
      else Walk(data, at + 3, end, nul, st.(slask := st.slask + [Escape(hi.value, lo.value)]))
    else Walk(data, at + 1, end, nul, Put(st, data[at]))
  }

  lemma {:induction false} WalkThenScan(data: bytes, at: nat, end: nat, nul: bool, st: State)
    requires end <= |data|
    ensures var w := Walk(data, at, end, nul, st);
      Scan(data, at, |data|, nul, st) == if w.None? then None else Scan(data, w.value.0, |data|, nul, w.value.1)
    decreases end - at
  {
    hide Escape;
    if at < end {
      if data[at] != PERCENT {
        WalkThenScan(data, at + 1, end, nul, Put(st, data[at]));
      } else {
        var hi, lo := CharAt(data, at + 1, nul), CharAt(data, at + 2, nul);
        if hi.Some? && lo.Some? {
          WalkThenScan(data, at + 3, end, nul, st.(slask := st.slask + [Escape(hi.value, lo.value)]));
        }
      }
    }
  }

  /** A field stands at index `p`, up to an ampersand or the end. */
  predicate FieldAt(data: bytes, p: nat, f: Field) {
    var end := p + |FieldBody(f)|;
    At(data, p, FieldBody(f)) && (end == |data| || data[end] == AMPERSAND)
  }

  lemma CharOfField(data: bytes, p: nat, f: Field, o: nat)
    requires FieldAt(data, p, f) && o < |FieldBody(f)|
    ensures p + o < |data| && data[p + o] == FieldBody(f)[o]
  {
    assert data[p..p + |FieldBody(f)|][o] == data[p + o];
  }

  lemma {:induction false} WalkInField(data: bytes, p: nat, f: Field, j: nat, clean: bool, o: nat, nul: bool, st: State)
    requires FieldAt(data, p, f) && InField(f, j, clean, o, st) && o <= |FieldBody(f)| + 1
    ensures var w := Walk(data, p + o, p + |FieldBody(f)|, nul, st);
      w.Some? ==>
        && p + |FieldBody(f)| <= w.value.0 <= p + |FieldBody(f)| + 1
        && InField(f, j, clean, w.value.0 - p, w.value.1) && st.cgi <= w.value.1.cgi
    decreases |FieldBody(f)| + 1 - o
  {
    hide InField, FieldBody, Put, Escape, At;
    if o < |FieldBody(f)| {
      CharOfField(data, p, f, o);
      var c := data[p + o];
      if c != PERCENT {
        PutInField(f, j, clean, o, st);
        WalkInField(data, p, f, j, clean, o + 1, nul, Put(st, c));
      } else {
        FieldChar(f, o);
        CharOfField(data, p, f, o + 1);
        if o + 2 < |FieldBody(f)| { CharOfField(data, p, f, o + 2); }
        var hi, lo := CharAt(data, p + o + 1, nul), CharAt(data, p + o + 2, nul);
        if hi.Some? && lo.Some? {
          EscapeInField(f, j, clean, o, st, lo.value);
          var next := st.(slask := st.slask + [Escape(hi.value, lo.value)]);
          WalkInField(data, p, f, j, clean, o + 3, nul, next);
        }
      }
    }
  }

  /** What is known where field number `j` begins. */
  predicate BeforeField(fields: seq<Field>, j: nat, st: State)
    requires j <= |fields|
  {
    || |st.cgi| < j
    || (|st.cgi| == j && AllClean(fields[..j]) && st.slask == [] && !st.gotName)
    || Wrong(fields, st.cgi)
  }

  predicate Wrong(fields: seq<Field>, cgi: seq<Entry>) {
    exists i :: 0 <= i < |fields| && i < |cgi| && cgi[i] != Entry(fields[i].name, Joined(fields[i].values))
  }

  lemma {:induction false} EntriesAt(fields: seq<Field>)
    ensures |Entries(fields)| == |fields|
    ensures forall i :: 0 <= i < |fields| ==> Entries(fields)[i] == Entry(fields[i].name, Joined(fields[i].values))
  {
    if fields != [] { EntriesAt(fields[1..]); }
  }

  lemma {:induction false} EntriesStay(data: bytes, at: nat, nul: bool, st: State)
    ensures var end := Scan(data, at, |data|, nul, st);
      end.Some? ==> st.cgi <= end.value.cgi
    decreases |data| - at
  {
    hide Escape;
    if at < |data| {
      if data[at] != PERCENT {
        EntriesStay(data, at + 1, nul, Put(st, data[at]));
      } else {
        var hi, lo := CharAt(data, at + 1, nul), CharAt(data, at + 2, nul);
        if hi.Some? && lo.Some? {
          EntriesStay(data, at + 3, nul, st.(slask := st.slask + [Escape(hi.value, lo.value)]));
        }
      }
    }
  }

  /** What closing the entry at the end of a field makes of it. */
  lemma ClosedField(f: Field, j: nat, clean: bool, o: nat, st: State)
    requires InField(f, j, clean, o, st) && |FieldBody(f)| <= o <= |FieldBody(f)| + 1
    ensures |st.cgi| <= j || st.cgi[j] != Entry(f.name, Joined(f.values))
    ensures |st.cgi| == j ==>
      (clean && Clean(f.name)) || Closed(st)[j] != Entry(f.name, Joined(f.values))
  {
    hide EncodedLines, Joined;
    LinesAreUnreserved(f.values);
  }

  /** From the end of a field to the beginning of the next one. */
  lemma NextField(fields: seq<Field>, j: nat, clean: bool, o: nat, st: State)
    requires j + 1 < |fields| && |FieldBody(fields[j])| <= o <= |FieldBody(fields[j])| + 1
    requires InField(fields[j], j, clean, o, st) && (clean ==> AllClean(fields[..j]))
    ensures BeforeField(fields, j + 1, if o == |FieldBody(fields[j])| then Put(st, AMPERSAND) else st)
  {
    hide FieldBody, InField, Joined;
    ClosedField(fields[j], j, clean, o, st);
    var next := if o == |FieldBody(fields[j])| then Put(st, AMPERSAND) else st;
    if |st.cgi| > j {
      assert next.cgi[j] == st.cgi[j];
    }
    assert forall i :: 0 <= i < j ==> fields[..j + 1][i] == fields[..j][i];
  }

  lemma LastField(fields: seq<Field>, clean: bool, o: nat, st: State)
    requires fields != []
    requires var f := fields[|fields| - 1];
      |FieldBody(f)| <= o <= |FieldBody(f)| + 1 && InField(f, |fields| - 1, clean, o, st)
    requires clean ==> AllClean(fields[..|fields| - 1])
    ensures Closed(st) == Entries(fields) ==> AllClean(fields)
  {
    hide FieldBody, InField, Joined;
    var j := |fields| - 1;
    ClosedField(fields[j], j, clean, o, st);
    EntriesAt(fields);
    assert forall i :: 0 <= i < j ==> fields[i] == fields[..j][i];
  }

  /** Where field number `j` begins. */
  lemma FieldBegins(data: bytes, p: nat, fields: seq<Field>, j: nat)
    requires j < |fields| && p + |Body(fields[j..])| == |data| && At(data, p, Body(fields[j..]))
    ensures FieldAt(data, p, fields[j])
    ensures var end := p + |FieldBody(fields[j])|;
      if j + 1 == |fields| then end == |data|
      else
        var rest := Body(fields[j + 1..]);
        data[end] == AMPERSAND && end + 1 + |rest| == |data| && At(data, end + 1, rest)
  {
    hide FieldBody;
    var first, rest := FieldBody(fields[j]), Body(fields[j + 1..]);
    assert fields[j..][1..] == fields[j + 1..];
    if j + 1 < |fields| {
      assert Body(fields[j..]) == first + ([AMPERSAND] + rest);
      AtParts(data, p, first, [AMPERSAND] + rest);
      AtParts(data, p + |first|, [AMPERSAND], rest);
      assert data[p + |first|] == data[p + |first|..p + |first| + 1][0];
    }
  }

  lemma {:induction false} OnlyCleanSurvive(data: bytes, p: nat, fields: seq<Field>, j: nat, nul: bool, st: State)
    requires j < |fields| && p + |Body(fields[j..])| == |data| && At(data, p, Body(fields[j..]))
    requires BeforeField(fields, j, st)
    ensures var end := Scan(data, p, |data|, nul, st);
      end.Some? && Closed(end.value) == Entries(fields) ==> AllClean(fields)
    decreases |fields| - j
  {
    hide Scan, Walk, FieldBody, InField, At, AllClean, Body, Put;
    EntriesStay(data, p, nul, st);
    EntriesAt(fields);
    if !Wrong(fields, st.cgi) {
      var f := fields[j];
      var clean, end := AllClean(fields[..j]), p + |FieldBody(f)|;
      FieldBegins(data, p, fields, j);
      WalkThenScan(data, p, end, nul, st);
      IntoField(fields, j, st);
      WalkInField(data, p, f, j, clean, 0, nul, st);
      var w := Walk(data, p, end, nul, st);
      if w.Some? {
        var (i, next) := w.value;
        if j + 1 == |fields| {
          LastField(fields, clean, i - p, next);
          ScanPastEnd(data, i, nul, next);
        } else {
          NextField(fields, j, clean, i - p, next);
          if i == end {
            ScanHere(data, end, AMPERSAND, nul, next);
            OnlyCleanSurvive(data, end + 1, fields, j + 1, nul, Put(next, AMPERSAND));
          } else {
            OnlyCleanSurvive(data, end + 1, fields, j + 1, nul, next);
          }
        }
      }
    }
  }

  lemma IntoField(fields: seq<Field>, j: nat, st: State)
    requires j < |fields| && BeforeField(fields, j, st) && !Wrong(fields, st.cgi)
    ensures InField(fields[j], j, AllClean(fields[..j]), 0, st)
  {
  }

  lemma ScanPastEnd(data: bytes, at: nat, nul: bool, st: State)
    requires at >= |data|
    ensures Scan(data, at, |data|, nul, st) == Some(st)
  {
  }

  lemma ScanHere(data: bytes, at: nat, c: byte, nul: bool, st: State)
    requires at < |data| && data[at] == c != PERCENT
    ensures Scan(data, at, |data|, nul, st) == Scan(data, at + 1, |data|, nul, Put(st, c))
  {
  }

  /** Fields come back as they were given exactly if all their names are clean. */
  lemma FormSurvivesIffClean(fields: seq<Field>, nul: bool)
    requires fields != []
    ensures Parsed(Body(fields), |Body(fields)|, nul) == Some(Entries(fields)) <==> AllClean(fields)
  {
    if AllClean(fields) {
      ParseAfterBuild(fields, nul);
    }
    var data := Body(fields);
    assert fields[0..] == fields && data[0..|data|] == data;
    OnlyCleanSurvive(data, 0, fields, 0, nul, START);
  }
}
