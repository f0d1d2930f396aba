/**
 FAT long file names: UTF-8 into UTF-16 units, units into directory records,
 and back (section 3 of RFC 3629, section 2.1 of RFC 2781).
 */
module LongNames {
  import opened Machine
  import opened Bytes

  const UNIT_LIMIT := 255
  const NAME_CAPACITY := 768
  const PADDING := 0xffff

  // A code point that names may contain.
  predicate Scalar(c: nat) {
    0 < c <= 0x10ffff && !(0xd800 <= c <= 0xdfff)
  }

  predicate Scalars(cs: seq<nat>) {
    forall i :: 0 <= i < |cs| ==> Scalar(cs[i])
  }

  // ---- UTF-8 ----

  // append_utf8
  function Utf8(c: nat): (s: seq<u8>)
    requires c <= 0x10ffff
    ensures 1 <= |s| <= 4
  {
    if c <= 0x7f then [c]
    else if c <= 0x7ff then [0xc0 + c / 0x40, 0x80 + c % 0x40]
    else if c <= 0xffff then [0xe0 + c / 0x1000, 0x80 + c / 0x40 % 0x40, 0x80 + c % 0x40]
    else [0xf0 + c / 0x4_0000, 0x80 + c / 0x1000 % 0x40, 0x80 + c / 0x40 % 0x40, 0x80 + c % 0x40]
  }

  function Utf8All(cs: seq<nat>): seq<u8>
    requires Scalars(cs)
  {
    if cs == [] then [] else Utf8(cs[0]) + Utf8All(cs[1..])
  }

  predicate Forbidden(b: u8) {
    b < 0x20 || b == '\"' as int || b == '*' as int || b == '/' as int || b == ':' as int || b == '<' as int
      || b == '>' as int
    || b == '?' as int || b == '\\' as int || b == '|' as int
  }

  // How many continuation bytes a first byte announces, and its own bits.
  function Lead(b: u8): Option<(nat, nat)> {
    if b < 0x80 then Some((0, b))
    else if 0xc0 <= b < 0xe0 then Some((1, b - 0xc0))
    else if 0xe0 <= b < 0xf0 then Some((2, b - 0xe0))
    else if 0xf0 <= b < 0xf8 then Some((3, b - 0xf0))
    else None
  }

  function Continue(bytes: seq<u8>, at: nat, count: nat, bits: nat): Option<nat>
    decreases count
  {
    if count == 0 then Some(bits)
    else if at >= |bytes| || !(0x80 <= bytes[at] < 0xc0) then None
    else Continue(bytes, at + 1, count - 1, bits * 0x40 + (bytes[at] - 0x80))
  }

  // The shortest form only, and no surrogates.
  predicate WellCoded(count: nat, c: nat) {
    && (count == 1 ==> 0x80 <= c) && (count == 2 ==> 0x800 <= c) && (count == 3 ==> 0x1_0000 <= c)
    && c <= 0x10ffff && !(0xd800 <= c <= 0xdfff)
  }

  // One code point from the front of a name, with the bytes it took.
  function DecodeOne(bytes: seq<u8>): (r: Option<(nat, nat)>)
    requires bytes != []
    ensures r.Some? ==> 1 <= r.value.1 <= 4
  {
    if Forbidden(bytes[0]) || Lead(bytes[0]).None? then None
    else
      var (count, bits) := Lead(bytes[0]).value;
      var c := Continue(bytes, 1, count, bits);
      if c.None? || !WellCoded(count, c.value) then None else Some((c.value, count + 1))
  }

  lemma {:induction false} Digits(x: nat, y: nat, z: nat, w: nat)
    requires y < 0x40 && z < 0x40 && w < 0x40
    ensures var c := ((x * 0x40 + y) * 0x40 + z) * 0x40 + w;
            c / 0x4_0000 == x && c / 0x1000 % 0x40 == y && c / 0x40 % 0x40 == z && c % 0x40 == w
              && c / 0x1000 == x * 0x40 + y
  {
  }

  lemma {:induction false} Continued(bytes: seq<u8>, count: nat, bits: nat)
    requires count <= 3 && Continue(bytes, 1, count, bits).Some?
    ensures count < |bytes| || count == 0
    ensures forall i :: 1 <= i <= count ==> 0x80 <= bytes[i] < 0xc0
    ensures var c := Continue(bytes, 1, count, bits).value;
            && (count == 0 ==> c == bits)
            && (count == 1 ==> c == bits * 0x40 + (bytes[1] - 0x80))
            && (count == 2 ==> c == (bits * 0x40 + (bytes[1] - 0x80)) * 0x40 + (bytes[2] - 0x80))
            && (count == 3 ==> c == ((bits * 0x40 + (bytes[1] - 0x80)) * 0x40 + (bytes[2] - 0x80)) * 0x40
                               + (bytes[3] - 0x80))
  {
    if count == 1 {
      assert Continue(bytes, 1, 1, bits) == Continue(bytes, 2, 0, bits * 0x40 + (bytes[1] - 0x80));
    } else if count == 2 {
      var b1 := bits * 0x40 + (bytes[1] - 0x80);
      assert Continue(bytes, 1, 2, bits) == Continue(bytes, 2, 1, b1);
      assert Continue(bytes, 2, 1, b1) == Continue(bytes, 3, 0, b1 * 0x40 + (bytes[2] - 0x80));
    } else if count == 3 {
      var b1 := bits * 0x40 + (bytes[1] - 0x80);
      assert Continue(bytes, 1, 3, bits) == Continue(bytes, 2, 2, b1);
      var b2 := b1 * 0x40 + (bytes[2] - 0x80);
      assert Continue(bytes, 2, 2, b1) == Continue(bytes, 3, 1, b2);
      assert Continue(bytes, 3, 1, b2) == Continue(bytes, 4, 0, b2 * 0x40 + (bytes[3] - 0x80));
    }
  }

  // What is decoded is the encoding of what was decoded.
  lemma {:induction false} DecodeOneEncodes(bytes: seq<u8>)
    requires bytes != [] && DecodeOne(bytes).Some?
    ensures var (c, n) := DecodeOne(bytes).value;
            Scalar(c) && n <= |bytes| && Utf8(c) == bytes[..n]
  {
    var (count, bits) := Lead(bytes[0]).value;
    var c := DecodeOne(bytes).value.0;
    Continued(bytes, count, bits);
    if count == 1 {
      EncodesTwo(bits, bytes[1] - 0x80);
    } else if count == 2 {
      EncodesThree(bits, bytes[1] - 0x80, bytes[2] - 0x80);
    } else if count == 3 {
      EncodesFour(bits, bytes[1] - 0x80, bytes[2] - 0x80, bytes[3] - 0x80);
    }
  }

  lemma {:induction false} EncodesTwo(bits: nat, x: nat)
    requires bits < 0x20 && x < 0x40 && WellCoded(1, bits * 0x40 + x)
    ensures var c := bits * 0x40 + x; Scalar(c) && Utf8(c) == [0xc0 + bits, 0x80 + x]
  {
    Digits(0, 0, bits, x);
  }

  lemma {:induction false} EncodesThree(bits: nat, x: nat, y: nat)
    requires bits < 0x10 && x < 0x40 && y < 0x40 && WellCoded(2, (bits * 0x40 + x) * 0x40 + y)
    ensures var c := (bits * 0x40 + x) * 0x40 + y; Scalar(c) && Utf8(c) == [0xe0 + bits, 0x80 + x, 0x80 + y]
  {
    Digits(0, bits, x, y);
  }

  lemma {:induction false} EncodesFour(bits: nat, x: nat, y: nat, z: nat)
    requires bits < 8 && x < 0x40 && y < 0x40 && z < 0x40 && WellCoded(3, ((bits * 0x40 + x) * 0x40 + y) * 0x40 + z)
    ensures var c := ((bits * 0x40 + x) * 0x40 + y) * 0x40 + z;
            Scalar(c) && Utf8(c) == [0xf0 + bits, 0x80 + x, 0x80 + y, 0x80 + z]
  {
    Digits(bits, x, y, z);
  }

  // The code points of a whole name; None if a byte is out of place.
  function Points(bytes: seq<u8>): Option<seq<nat>>
    decreases |bytes|
  {
    if bytes == [] then Some([])
    else
      var one := DecodeOne(bytes);
      if one.None? || one.value.1 > |bytes| then None
      else
        var rest := Points(bytes[one.value.1..]);
        if rest.None? then None else Some([one.value.0] + rest.value)
  }

  lemma {:induction false} FirstPoint(bytes: seq<u8>) returns (c: nat, n: nat)
    requires bytes != [] && Points(bytes).Some?
    ensures Scalar(c) && 0 < n <= |bytes| && bytes == Utf8(c) + bytes[n..]
    ensures Points(bytes[n..]).Some? && Points(bytes).value == [c] + Points(bytes[n..]).value
  {
    c, n := DecodeOne(bytes).value.0, DecodeOne(bytes).value.1;
    DecodeOneEncodes(bytes);
    assert bytes == bytes[..n] + bytes[n..];
  }

  lemma {:induction false} PointsEncode(bytes: seq<u8>)
    requires Points(bytes).Some?
    ensures Scalars(Points(bytes).value) && Utf8All(Points(bytes).value) == bytes
    decreases |bytes|
  {
    if bytes != [] {
      var c, n := FirstPoint(bytes);
      PointsEncode(bytes[n..]);
      var cs := Points(bytes).value;
      assert cs[1..] == Points(bytes[n..]).value && cs[0] == c;
    }
  }

  // ---- UTF-16 ----

  function UnitsOf(c: nat): (s: seq<u16>)
    requires c <= 0x10ffff
    ensures 1 <= |s| <= 2
  {
    if c <= 0xffff then [c] else [0xd800 + (c - 0x1_0000) / 0x400, 0xdc00 + (c - 0x1_0000) % 0x400]
  }

  function Units(cs: seq<nat>): seq<u16>
    requires Scalars(cs)
  {
    if cs == [] then [] else UnitsOf(cs[0]) + Units(cs[1..])
  }

  // The units of an accepted name.
  function NameUnits(bytes: seq<u8>): Option<seq<u16>> {
    if bytes == [] || Points(bytes).None? then None
    else
      PointsEncode(bytes);
      var units := Units(Points(bytes).value);
      if |units| > UNIT_LIMIT || units == [] || units[|units| - 1] == ' ' as int
         || units[|units| - 1] == '.' as int then None
      else Some(units)
  }

  // decode_utf8_name
  method DecodeUtf8Name(bytes: seq<u8>) returns (output: Option<seq<u16>>)
    ensures output == NameUnits(bytes)
  {
    if bytes == [] {
      return None;
    }
    var rest: seq<u8>, units: seq<u16> := bytes, [];
    ghost var done: seq<nat> := [];
    assert Points(bytes).Some? ==> [] + Points(bytes).value == Points(bytes).value;
    while rest != []
      invariant Scalars(done) && units == Units(done) && |units| <= UNIT_LIMIT
      invariant Points(bytes) == Prefixed(done, Points(rest))
      decreases |rest|
    {
      var one := DecodeOne(rest);
      if one.None? {
        return None;
      }
      DecodeOneEncodes(rest);
      var (c, n) := one.value;
      PointsStep(done, rest);
      UnitsAppend(done, c);
      if |units| + |UnitsOf(c)| > UNIT_LIMIT {
        TooLong(bytes, done + [c], rest[n..]);
        return None;
      }
      units := units + UnitsOf(c);
      done := done + [c];
      rest := rest[n..];
    }
    assert done + [] == done && Points(bytes) == Some(done);
    if units == [] || units[|units| - 1] == ' ' as int || units[|units| - 1] == '.' as int {
      return None;
    }
    return Some(units);
  }

  ghost function Prefixed(done: seq<nat>, rest: Option<seq<nat>>): Option<seq<nat>> {
    if rest.None? then None else Some(done + rest.value)
  }

  lemma {:induction false} PointsStep(done: seq<nat>, rest: seq<u8>)
    requires rest != [] && DecodeOne(rest).Some?
    ensures var (c, n) := DecodeOne(rest).value;
            n <= |rest| && Prefixed(done, Points(rest)) == Prefixed(done + [c], Points(rest[n..]))
  {
    DecodeOneEncodes(rest);
    var (c, n) := DecodeOne(rest).value;
    if Points(rest[n..]).Some? {
      assert done + ([c] + Points(rest[n..]).value) == (done + [c]) + Points(rest[n..]).value;
    }
  }

  lemma {:induction false} UnitsConcat(a: seq<nat>, b: seq<nat>)
    requires Scalars(a) && Scalars(b)
    ensures Scalars(a + b) && Units(a + b) == Units(a) + Units(b)
  {
    if a == [] {
      assert a + b == b;
    } else {
      UnitsConcat(a[1..], b);
      assert (a + b)[1..] == a[1..] + b;
      SeqAssoc(UnitsOf(a[0]), Units(a[1..]), Units(b));
    }
  }

  lemma {:induction false} UnitsAppend(cs: seq<nat>, c: nat)
    requires Scalars(cs) && Scalar(c)
    ensures Scalars(cs + [c]) && Units(cs + [c]) == Units(cs) + UnitsOf(c)
  {
    UnitsConcat(cs, [c]);
    assert [c][1..] == [];
  }

  // A prefix of more than 255 units makes the name too long.
  lemma {:induction false} TooLong(bytes: seq<u8>, done: seq<nat>, rest: seq<u8>)
    requires Scalars(done) && Points(bytes) == Prefixed(done, Points(rest)) && |Units(done)| > UNIT_LIMIT
    ensures NameUnits(bytes).None?
  {
    if Points(rest).Some? {
      PointsEncode(rest);
      PointsEncode(bytes);
      UnitsConcat(done, Points(rest).value);
    }
  }

  // ---- Reading units back ----

  // A surrogate pair.
  function Joined(high: u16, low: u16): nat
    requires 0xd800 <= high <= 0xdbff && 0xdc00 <= low <= 0xdfff
  {
    0x1_0000 + ((high as int) - 0xd800) * 0x400 + ((low as int) - 0xdc00)
  }

  // decode_long_name's reading of the characters: it ends at a zero or at
  // padding; None if surrogates do not pair up.
  function UnitPoints(s: seq<u16>): Option<seq<nat>>
    decreases |s|
  {
    if s == [] || s[0] == 0 || s[0] == PADDING then Some([])
    else if 0xd800 <= s[0] <= 0xdbff then
      if |s| < 2 || !(0xdc00 <= s[1] <= 0xdfff) then None
      else Preceded(Joined(s[0], s[1]), UnitPoints(s[2..]))
    else if 0xdc00 <= s[0] <= 0xdfff then None
    else Preceded(s[0], UnitPoints(s[1..]))
  }

  function Preceded(c: nat, rest: Option<seq<nat>>): Option<seq<nat>> {
    if rest.None? then None else Some([c] + rest.value)
  }

  // The code points before the first U+FFFF.
  function BeforePadding(cs: seq<nat>): seq<nat> {
    if cs == [] || cs[0] == PADDING then [] else [cs[0]] + BeforePadding(cs[1..])
  }

  lemma {:induction false} UnitsRead(cs: seq<nat>, tail: seq<u16>)
    requires Scalars(cs) && (tail == [] || tail[0] == 0 || tail[0] == PADDING)
    ensures UnitPoints(Units(cs) + tail) == Some(BeforePadding(cs))
  {
    if cs == [] {
      assert Units(cs) + tail == tail;
    } else {
      var c, s := cs[0], Units(cs) + tail;
      assert Scalar(c);
      UnitsRead(cs[1..], tail);
      SeqAssoc(UnitsOf(c), Units(cs[1..]), tail);
      UnitStep(c, Units(cs[1..]) + tail);
    }
  }

  lemma {:induction false} UnitStep(c: nat, rest: seq<u16>)
    requires Scalar(c)
    ensures UnitPoints(UnitsOf(c) + rest) == if c == PADDING then Some([]) else Preceded(c, UnitPoints(rest))
  {
    var s := UnitsOf(c) + rest;
    if c <= 0xffff {
      assert s[1..] == rest;
    } else {
      Pair(c);
      assert s[0] == UnitsOf(c)[0] && s[1] == UnitsOf(c)[1] && s[2..] == rest;
    }
  }

  lemma {:induction false} Pair(c: nat)
    requires 0x1_0000 <= c <= 0x10ffff
    ensures var s := UnitsOf(c);
            && 0xd800 <= s[0] <= 0xdbff && 0xdc00 <= s[1] <= 0xdfff
            && Joined(s[0], s[1]) == c
  {
  }

  lemma {:induction false} UnitPointsValid(s: seq<u16>)
    requires UnitPoints(s).Some?
    ensures Scalars(UnitPoints(s).value) && |Utf8All(UnitPoints(s).value)| <= 3 * |s|
    decreases |s|
  {
    if s != [] && s[0] != 0 && s[0] != PADDING {
      var n := if 0xd800 <= s[0] <= 0xdbff then 2 else 1;
      UnitPointsValid(s[n..]);
      var cs := UnitPoints(s).value;
      assert cs[1..] == UnitPoints(s[n..]).value;
    }
  }

  // ---- Directory records ----

  const LONG_NAME := 0x0f
  const CHARACTERS := 260

  datatype State = State(characters: seq<u16>, checksum: u8, expected: nat, parts: nat, active: bool)

  function ResetState(): State {
    State(seq(CHARACTERS, _ => PADDING), 0, 0, 0, false)
  }

  // Where the thirteen characters lie in a record.
  function Offset(i: nat): (at: nat)
    requires i < 13
    ensures at + 2 <= 32
  {
    if i < 5 then 1 + 2 * i else if i < 11 then 4 + 2 * i else 6 + 2 * i
  }

  // The characters of all records: the units, a zero, then padding.
  function Padded(units: seq<u16>, i: nat): u16 {
    if i < |units| then units[i] else if i == |units| then 0 else PADDING
  }

  function Low(v: u16): u8 {
    v % 0x100
  }

  function High(v: u16): u8 {
    v / 0x100
  }

  // One record as insert_directory_record writes it.
  function LongRecord(c: seq<u16>, ordinal: nat, last: bool, checksum: u8): (raw: seq<u8>)
    requires |c| == 13 && 0 < ordinal <= 20
    ensures |raw| == 32
  {
    [if last then ordinal + 0x40 else ordinal,
     Low(c[0]), High(c[0]), Low(c[1]), High(c[1]), Low(c[2]), High(c[2]), Low(c[3]), High(c[3]), Low(c[4]), High(c[4]),
     LONG_NAME, 0, checksum,
     Low(c[5]), High(c[5]), Low(c[6]), High(c[6]), Low(c[7]), High(c[7]), Low(c[8]), High(c[8]), Low(c[9]),
       High(c[9]), Low(c[10]), High(c[10]),
     0, 0,
     Low(c[11]), High(c[11]), Low(c[12]), High(c[12])]
  }

  function Chars(raw: seq<u8>): (c: seq<u16>)
    requires |raw| == 32
    ensures |c| == 13
  {
    seq<u16>(13, i requires 0 <= i < 13 => Little16(raw, Offset(i)))
  }

  lemma {:induction false} CharsRead(c: seq<u16>, ordinal: nat, last: bool, checksum: u8, i: nat)
    requires |c| == 13 && 0 < ordinal <= 20 && i < 13
    ensures Chars(LongRecord(c, ordinal, last, checksum))[i] == c[i]
  {
    CharBytes(c, ordinal, last, checksum, i);
  }

  lemma {:induction false} CharBytes(c: seq<u16>, ordinal: nat, last: bool, checksum: u8, i: nat)
    requires |c| == 13 && 0 < ordinal <= 20 && i < 13
    ensures var raw := LongRecord(c, ordinal, last, checksum);
            raw[Offset(i)] == Low(c[i]) && raw[Offset(i) + 1] == High(c[i])
  {
  }

  // consume_long_entry
  function Consume(raw: seq<u8>, st: State): (r: State)
    requires |raw| == 32 && |st.characters| == CHARACTERS
    ensures |r.characters| == CHARACTERS
  {
    var ordinal, last := (raw[0] as int) % 0x20, (raw[0] as int) / 0x40 % 2 == 1;
    if ordinal == 0 || ordinal > 20 || raw[11] != LONG_NAME || raw[12] != 0 || Little16(raw, 26) != 0 then ResetState()
    else
      var s := if last then ResetState().(active := true, parts := ordinal, expected := ordinal, checksum := raw[13])
        else st;
      if !s.active || ordinal != s.expected || raw[13] != s.checksum || ordinal > s.parts then ResetState()
      else
        var base := (ordinal - 1) * 13;
        s.(characters := s.characters[..base] + Chars(raw) + s.characters[base + 13..], expected := s.expected - 1)
  }

  function PartCount(n: nat): nat {
    (n + 12) / 13
  }

  function Slice(units: seq<u16>, ordinal: nat): (c: seq<u16>)
    requires 0 < ordinal
    ensures |c| == 13
  {
    seq<u16>(13, i requires 0 <= i => Padded(units, (ordinal - 1) * 13 + i))
  }

  function RecordAt(units: seq<u16>, checksum: u8, k: nat): (raw: seq<u8>)
    requires |units| <= UNIT_LIMIT && k < PartCount(|units|)
    ensures |raw| == 32
  {
    var parts := PartCount(|units|);
    LongRecord(Slice(units, parts - k), parts - k, k == 0, checksum)
  }

  // The records of a name in the order they stand in the directory.
  function Records(units: seq<u16>, checksum: u8): (rs: seq<seq<u8>>)
    requires |units| <= UNIT_LIMIT
    ensures |rs| == PartCount(|units|) && forall i :: 0 <= i < |rs| ==> |rs[i]| == 32
  {
    seq<seq<u8>>(PartCount(|units|), k requires 0 <= k < PartCount(|units|) => RecordAt(units, checksum, k))
  }

  function ConsumeAll(rs: seq<seq<u8>>, st: State): (r: State)
    requires (forall i :: 0 <= i < |rs| ==> |rs[i]| == 32) && |st.characters| == CHARACTERS
    ensures |r.characters| == CHARACTERS
  {
    if rs == [] then st else Consume(rs[|rs| - 1], ConsumeAll(rs[..|rs| - 1], st))
  }

  // After k records the last 13 * k characters are in place.
  ghost predicate Partial(st: State, units: seq<u16>, checksum: u8, k: nat) {
    var parts := PartCount(|units|);
    && |st.characters| == CHARACTERS && k <= parts <= 20
    && (k > 0 ==> st.active && st.parts == parts && st.expected == parts - k && st.checksum == checksum)
    && forall i :: 13 * (parts - k) <= i < 13 * parts ==> st.characters[i] == Padded(units, i)
  }

  // A record that holds its slice of the name.
  ghost predicate IsPart(raw: seq<u8>, units: seq<u16>, checksum: u8, ordinal: nat) {
    |raw| == 32 && IsHeader(raw, checksum, ordinal, ordinal == PartCount(|units|)) && HasChars(raw, units, ordinal)
  }

  ghost predicate IsHeader(raw: seq<u8>, checksum: u8, ordinal: nat, last: bool)
    requires |raw| == 32
  {
    && 0 < ordinal <= 20 && (raw[0] as int) % 0x20 == ordinal && ((raw[0] as int) / 0x40 % 2 == 1 <==> last)
    && raw[11] == LONG_NAME && raw[12] == 0 && Little16(raw, 26) == 0 && raw[13] == checksum
  }

  ghost predicate HasChars(raw: seq<u8>, units: seq<u16>, ordinal: nat)
    requires |raw| == 32
  {
    0 < ordinal && forall i :: 0 <= i < 13 ==> Chars(raw)[i] == Padded(units, (ordinal - 1) * 13 + i)
  }

  lemma {:induction false} RecordIsPart(units: seq<u16>, checksum: u8, k: nat)
    requires |units| <= UNIT_LIMIT && k < PartCount(|units|)
    ensures IsPart(RecordAt(units, checksum, k), units, checksum, PartCount(|units|) - k)
  {
    var ordinal := PartCount(|units|) - k;
    HeaderRead(Slice(units, ordinal), checksum, ordinal, k == 0);
    SliceRead(units, checksum, ordinal, k == 0);
  }

  lemma {:induction false} HeaderRead(c: seq<u16>, checksum: u8, ordinal: nat, last: bool)
    requires |c| == 13 && 0 < ordinal <= 20
    ensures IsHeader(LongRecord(c, ordinal, last, checksum), checksum, ordinal, last)
  {
  }

  lemma {:induction false} SliceRead(units: seq<u16>, checksum: u8, ordinal: nat, last: bool)
    requires 0 < ordinal <= 20
    ensures HasChars(LongRecord(Slice(units, ordinal), ordinal, last, checksum), units, ordinal)
  {
    var raw := LongRecord(Slice(units, ordinal), ordinal, last, checksum);
    forall i | 0 <= i < 13 ensures Chars(raw)[i] == Padded(units, (ordinal - 1) * 13 + i) {
      CharsRead(Slice(units, ordinal), ordinal, last, checksum, i);
    }
  }

  lemma {:induction false} ConsumeStep(raw: seq<u8>, st: State, units: seq<u16>, checksum: u8, k: nat)
    requires k < PartCount(|units|) && Partial(st, units, checksum, k)
             && IsPart(raw, units, checksum, PartCount(|units|) - k)
    ensures Partial(Consume(raw, st), units, checksum, k + 1)
  {
    var parts := PartCount(|units|);
    var ordinal := parts - k;
    var base := (ordinal - 1) * 13;
    var s := if k == 0 then ResetState().(active := true, parts := ordinal, expected := ordinal,
                                          checksum := checksum) else st;
    var chars := s.characters[..base] + Chars(raw) + s.characters[base + 13..];
    assert Consume(raw, st) == s.(characters := chars, expected := s.expected - 1);
    forall i | base <= i < 13 * parts ensures chars[i] == Padded(units, i) {
      if i < base + 13 {
        assert chars[i] == Chars(raw)[i - base];
      } else {
        assert chars[i] == s.characters[i];
      }
    }
  }

  ghost predicate AreParts(rs: seq<seq<u8>>, units: seq<u16>, checksum: u8) {
    && |rs| == PartCount(|units|) <= 20
    && forall k :: 0 <= k < |rs| ==> IsPart(rs[k], units, checksum, PartCount(|units|) - k)
  }

  // Reading a name's records, whatever was read before, gives its characters
  // back.
  lemma {:induction false} PartsRead(rs: seq<seq<u8>>, units: seq<u16>, checksum: u8, st: State, k: nat)
    requires AreParts(rs, units, checksum) && k <= |rs| && |st.characters| == CHARACTERS
    ensures Partial(ConsumeAll(rs[..k], st), units, checksum, k)
  {
    if k > 0 {
      PartsRead(rs, units, checksum, st, k - 1);
      assert rs[..k][..k - 1] == rs[..k - 1];
      ConsumeStep(rs[k - 1], ConsumeAll(rs[..k - 1], st), units, checksum, k - 1);
    }
  }

  lemma {:induction false} RecordsAreParts(units: seq<u16>, checksum: u8)
    requires |units| <= UNIT_LIMIT
    ensures AreParts(Records(units, checksum), units, checksum)
  {
    forall k | 0 <= k < PartCount(|units|)
      ensures IsPart(Records(units, checksum)[k], units, checksum, PartCount(|units|) - k)
    {
      RecordIsPart(units, checksum, k);
    }
  }

  // ---- The whole way ----

  // decode_long_name
  function LongName(st: State): Option<seq<u8>>
    requires |st.characters| == CHARACTERS && st.parts * 13 <= CHARACTERS
  {
    var cs := UnitPoints(st.characters[..st.parts * 13]);
    if !st.active || st.expected != 0 || st.parts == 0 || cs.None? then None
    else
      UnitPointsValid(st.characters[..st.parts * 13]);
      var name := Utf8All(cs.value);
      if name == [] || |name| > NAME_CAPACITY then None else Some(name)
  }

  // The name that comes back from the directory.
  ghost function ReadBack(units: seq<u16>, checksum: u8, st: State): Option<seq<u8>>
    requires 0 < |units| <= UNIT_LIMIT && |st.characters| == CHARACTERS
  {
    RecordsAreParts(units, checksum);
    PartsRead(Records(units, checksum), units, checksum, st, PartCount(|units|));
    LongName(ConsumeAll(Records(units, checksum)[..PartCount(|units|)], st))
  }

  lemma {:induction false} PaddedTail(units: seq<u16>, chars: seq<u16>)
    requires |chars| == 13 * PartCount(|units|) && forall i :: 0 <= i < |chars| ==> chars[i] == Padded(units, i)
    ensures |units| <= |chars| && chars == units + chars[|units|..]
    ensures chars[|units|..] == [] || chars[|units|..][0] == 0
  {
  }

  // What comes back is the name up to the first U+FFFF, which the reader takes
  // for padding.
  lemma {:induction false} ReadBackExact(bytes: seq<u8>, checksum: u8, st: State)
    requires NameUnits(bytes).Some? && |st.characters| == CHARACTERS
    ensures Scalars(BeforePadding(Points(bytes).value))
    ensures ReadBack(NameUnits(bytes).value, checksum, st)
         == var cut := Utf8All(BeforePadding(Points(bytes).value)); if cut == [] then None else Some(cut)
  {
    var units := NameUnits(bytes).value;
    var cs := Points(bytes).value;
    PointsEncode(bytes);
    RecordsAreParts(units, checksum);
    PartsRead(Records(units, checksum), units, checksum, st, PartCount(|units|));
    var last := ConsumeAll(Records(units, checksum)[..PartCount(|units|)], st);
    var chars := last.characters[..last.parts * 13];
    PaddedTail(units, chars);
    UnitsRead(cs, chars[|units|..]);
    CutShort(cs);
  }

  // Every name the writer accepts comes back byte for byte if and only if it
  // does not contain U+FFFF.
  lemma {:induction false} RoundTrip(bytes: seq<u8>, checksum: u8, st: State)
    requires NameUnits(bytes).Some? && |st.characters| == CHARACTERS
    ensures ReadBack(NameUnits(bytes).value, checksum, st) == Some(bytes) <==> PADDING !in NameUnits(bytes).value
  {
    ReadBackExact(bytes, checksum, st);
    PointsEncode(bytes);
    CutShort(Points(bytes).value);
    PaddingUnit(Points(bytes).value);
  }

  lemma {:induction false} CutShort(cs: seq<nat>)
    requires Scalars(cs)
    ensures Scalars(BeforePadding(cs)) && |Utf8All(cs)| <= 3 * |Units(cs)|
    ensures |Utf8All(BeforePadding(cs))| <= |Utf8All(cs)| && (PADDING !in cs ==> BeforePadding(cs) == cs)
    ensures PADDING in cs ==> |Utf8All(BeforePadding(cs))| < |Utf8All(cs)|
  {
    if cs != [] {
      var c, rest := cs[0], cs[1..];
      assert Scalar(c);
      CutShort(rest);
      assert cs == [c] + rest;
      if c != PADDING {
        assert BeforePadding(cs)[1..] == BeforePadding(rest);
      }
    }
  }

  lemma {:induction false} PaddingUnit(cs: seq<nat>)
    requires Scalars(cs)
    ensures PADDING in Units(cs) <==> PADDING in cs
  {
    if cs != [] {
      var c, rest := cs[0], cs[1..];
      assert Scalar(c);
      PaddingUnit(rest);
      assert cs == [c] + rest;
      assert PADDING in UnitsOf(c) <==> c == PADDING;
    }
  }

  // ---- The loops ----

  // The loop of insert_directory_record over the parts of a name.
  method WriteRecords(units: seq<u16>, checksum: u8) returns (records: seq<seq<u8>>)
    requires |units| <= UNIT_LIMIT
    ensures records == Records(units, checksum)
  {
    records := [];
    var parts := PartCount(|units|);
    for diskPart := 0 to parts
      invariant |records| == diskPart && forall k :: 0 <= k < diskPart ==> records[k] == RecordAt(units, checksum, k)
    {
      var raw := WriteRecord(units, checksum, parts - diskPart, diskPart == 0);
      records := records + [raw];
    }
  }

  // The thirteen characters of one record, byte by byte over a record of ones.
  method WriteRecord(units: seq<u16>, checksum: u8, ordinal: nat, last: bool) returns (raw: seq<u8>)
    requires 0 < ordinal <= 20
    ensures raw == LongRecord(Slice(units, ordinal), ordinal, last, checksum)
  {
    var c := Slice(units, ordinal);
    raw := Blank(checksum, ordinal, last);
    for i := 0 to 13
      invariant raw == Written(c, checksum, ordinal, last, i)
    {
      var value := Padded(units, (ordinal - 1) * 13 + i);
      WrittenStep(c, checksum, ordinal, last, i);
      raw := raw[Offset(i) := Low(value)][Offset(i) + 1 := High(value)];
    }
    WrittenAll(c, checksum, ordinal, last);
  }

  function Blank(checksum: u8, ordinal: nat, last: bool): (raw: seq<u8>)
    requires 0 < ordinal <= 20
    ensures |raw| == 32
  {
    var start := if last then ordinal + 0x40 else ordinal;
    seq<u8>(32, _ => 0xff)[0 := start][11 := LONG_NAME][12 := 0][13 := checksum][26 := 0][27 := 0]
  }

  function Written(c: seq<u16>, checksum: u8, ordinal: nat, last: bool, n: nat): (raw: seq<u8>)
    requires |c| == 13 && 0 < ordinal <= 20 && n <= 13
    ensures |raw| == 32
  {
    if n == 0 then Blank(checksum, ordinal, last)
    else Written(c, checksum, ordinal, last, n - 1)[Offset(n - 1) := Low(c[n - 1])][Offset(n - 1) + 1 := High(c[n - 1])]
  }

  lemma {:induction false} WrittenStep(c: seq<u16>, checksum: u8, ordinal: nat, last: bool, n: nat)
    requires |c| == 13 && 0 < ordinal <= 20 && n < 13
    ensures Written(c, checksum, ordinal, last, n + 1)
         == Written(c, checksum, ordinal, last, n)[Offset(n) := Low(c[n])][Offset(n) + 1 := High(c[n])]
  {
  }

  // A byte that is no character stays, and a character byte is written once.
  lemma {:induction false} WrittenByte(c: seq<u16>, checksum: u8, ordinal: nat, last: bool, n: nat, at: nat)
    requires |c| == 13 && 0 < ordinal <= 20 && n <= 13 && at < 32
    ensures (forall i :: 0 <= i < n ==> at != Offset(i) && at != Offset(i) + 1) ==>
              Written(c, checksum, ordinal, last, n)[at] == Blank(checksum, ordinal, last)[at]
    ensures forall i :: 0 <= i < n && at == Offset(i) ==> Written(c, checksum, ordinal, last, n)[at] == Low(c[i])
    ensures forall i :: 0 <= i < n && at == Offset(i) + 1 ==> Written(c, checksum, ordinal, last, n)[at] == High(c[i])
  {
    if n > 0 {
      WrittenByte(c, checksum, ordinal, last, n - 1, at);
      var before, p := Written(c, checksum, ordinal, last, n - 1), Offset(n - 1);
      assert Written(c, checksum, ordinal, last, n)[at] == if at == p then Low(c[n - 1])
             else if at == p + 1 then High(c[n - 1]) else before[at];
    }
  }

  lemma {:induction false} WrittenAll(c: seq<u16>, checksum: u8, ordinal: nat, last: bool)
    requires |c| == 13 && 0 < ordinal <= 20
    ensures Written(c, checksum, ordinal, last, 13) == LongRecord(c, ordinal, last, checksum)
  {
    var raw, record := Written(c, checksum, ordinal, last, 13), LongRecord(c, ordinal, last, checksum);
    forall at | 0 <= at < 32 ensures raw[at] == record[at] {
      WrittenByte(c, checksum, ordinal, last, 13, at);
      if at == 0 || 11 <= at <= 13 || 26 <= at <= 27 {
        HeaderByte(c, checksum, ordinal, last, at);
      } else {
        var i := Character(at);
        CharBytes(c, ordinal, last, checksum, i);
      }
    }
  }

  // Bytes that belong to no character.
  lemma {:induction false} HeaderByte(c: seq<u16>, checksum: u8, ordinal: nat, last: bool, at: nat)
    requires |c| == 13 && 0 < ordinal <= 20 && (at == 0 || 11 <= at <= 13 || 26 <= at <= 27)
    ensures LongRecord(c, ordinal, last, checksum)[at] == Blank(checksum, ordinal, last)[at]
    ensures forall i :: 0 <= i < 13 ==> at != Offset(i) && at != Offset(i) + 1
  {
  }

  lemma {:induction false} Character(at: nat) returns (i: nat)
    requires at < 32 && !(at == 0 || 11 <= at <= 13 || 26 <= at <= 27)
    ensures i < 13 && (at == Offset(i) || at == Offset(i) + 1)
  {
    i := if at < 11 then (at - 1) / 2 else if at < 26 then (at - 4) / 2 else (at - 6) / 2;
  }

  // decode_long_name: the characters back into UTF-8, up to the capacity of a
  // name.
  method DecodeLongName(st: State) returns (name: Option<seq<u8>>)
    requires |st.characters| == CHARACTERS && st.parts * 13 <= CHARACTERS
    ensures name == LongName(st)
  {
    if !st.active || st.expected != 0 || st.parts == 0 {
      return None;
    }
    var rest: seq<u16>, output: seq<u8> := st.characters[..st.parts * 13], [];
    ghost var all, done: seq<nat> := rest, [];
    assert UnitPoints(all).Some? ==> [] + UnitPoints(all).value == UnitPoints(all).value;
    while rest != [] && rest[0] != 0 && rest[0] != PADDING
      invariant Scalars(done) && output == Utf8All(done) && |output| <= NAME_CAPACITY
      invariant UnitPoints(all) == Prefixed(done, UnitPoints(rest))
      decreases |rest|
    {
      var c: nat, n := rest[0], 1;
      if 0xd800 <= rest[0] <= 0xdbff {
        if |rest| < 2 || !(0xdc00 <= rest[1] <= 0xdfff) {
          return None;
        }
        c, n := Joined(rest[0], rest[1]), 2;
      } else if 0xdc00 <= rest[0] <= 0xdfff {
        return None;
      }
      UnitPointsStep(done, rest, c, n);
      Utf8Append(done, c);
      if |output| + |Utf8(c)| > NAME_CAPACITY {
        TooManyBytes(all, done + [c], rest[n..]);
        return None;
      }
      output := output + Utf8(c);
      done, rest := done + [c], rest[n..];
    }
    assert done + [] == done && UnitPoints(all) == Some(done);
    return if output == [] then None else Some(output);
  }

  lemma {:induction false} UnitPointsStep(done: seq<nat>, rest: seq<u16>, c: nat, n: nat)
    requires n <= |rest| && UnitPoints(rest) == Preceded(c, UnitPoints(rest[n..]))
    ensures Prefixed(done, UnitPoints(rest)) == Prefixed(done + [c], UnitPoints(rest[n..]))
  {
    if UnitPoints(rest[n..]).Some? {
      assert done + ([c] + UnitPoints(rest[n..]).value) == (done + [c]) + UnitPoints(rest[n..]).value;
    }
  }

  lemma {:induction false} Utf8Concat(a: seq<nat>, b: seq<nat>)
    requires Scalars(a) && Scalars(b)
    ensures Scalars(a + b) && Utf8All(a + b) == Utf8All(a) + Utf8All(b)
  {
    if a == [] {
      assert a + b == b;
    } else {
      Utf8Concat(a[1..], b);
      assert (a + b)[1..] == a[1..] + b;
      SeqAssoc(Utf8(a[0]), Utf8All(a[1..]), Utf8All(b));
    }
  }

  lemma {:induction false} Utf8Append(cs: seq<nat>, c: nat)
    requires Scalars(cs) && Scalar(c)
    ensures Scalars(cs + [c]) && Utf8All(cs + [c]) == Utf8All(cs) + Utf8(c)
  {
    Utf8Concat(cs, [c]);
    assert [c][1..] == [];
  }

  lemma {:induction false} TooManyBytes(all: seq<u16>, done: seq<nat>, rest: seq<u16>)
    requires Scalars(done) && UnitPoints(all) == Prefixed(done, UnitPoints(rest)) && |Utf8All(done)| > NAME_CAPACITY
    ensures UnitPoints(all).Some? ==> Scalars(UnitPoints(all).value) && |Utf8All(UnitPoints(all).value)| > NAME_CAPACITY
  {
    if UnitPoints(rest).Some? {
      UnitPointsValid(rest);
      Utf8Concat(done, UnitPoints(rest).value);
    }
  }

  // The letter a, U+FFFF, the letter b: accepted, stored, and read as "a".
  lemma {:induction false} PaddingExample(checksum: u8, st: State)
    requires |st.characters| == CHARACTERS
    ensures var name := [0x61, 0xef, 0xbf, 0xbf, 0x62];
            && NameUnits(name) == Some([0x61, PADDING, 0x62])
            && ReadBack([0x61, PADDING, 0x62], checksum, st) == Some([0x61])
  {
    var name: seq<u8>, cs := [0x61, 0xef, 0xbf, 0xbf, 0x62], [0x61, PADDING, 0x62];
    ExamplePoints();
    assert cs[1..] == [PADDING, 0x62] && cs[1..][1..] == [0x62] && [0x62 as nat][1..] == [];
    assert Units([0x62]) == [0x62] && Units(cs[1..]) == [PADDING, 0x62] && Units(cs) == [0x61, PADDING, 0x62];
    ReadBackExact(name, checksum, st);
    assert BeforePadding(cs) == [0x61] && [0x61 as nat][1..] == [];
  }

  lemma {:induction false} ExamplePoints()
    ensures Points([0x61, 0xef, 0xbf, 0xbf, 0x62]) == Some([0x61, PADDING, 0x62])
  {
    var name: seq<u8> := [0x61, 0xef, 0xbf, 0xbf, 0x62];
    assert name[1..] == [0xef, 0xbf, 0xbf, 0x62] && name[1..][3..] == [0x62] && name[1..][3..][1..] == [];
    assert DecodeOne(name) == Some((0x61, 1));
    assert Continue(name[1..], 3, 0, PADDING) == Some(PADDING);
    assert Continue(name[1..], 2, 1, 0x3ff) == Some(PADDING);
    assert Continue(name[1..], 1, 2, 0xf) == Some(PADDING);
    assert DecodeOne(name[1..]) == Some((PADDING, 3));
    assert DecodeOne(name[1..][3..]) == Some((0x62, 1));
    var b: seq<nat>, pb: seq<nat> := [0x62], [PADDING, 0x62];
    PointsCons(name[1..][3..], 0x62, 1, []);
    assert [0x62] + [] == b && [PADDING] + b == pb && [0x61] + pb == [0x61, PADDING, 0x62];
    PointsCons(name[1..], PADDING, 3, b);
    PointsCons(name, 0x61, 1, pb);
  }

  lemma {:induction false} PointsCons(bytes: seq<u8>, c: nat, n: nat, cs: seq<nat>)
    requires bytes != [] && DecodeOne(bytes) == Some((c, n)) && n <= |bytes| && Points(bytes[n..]) == Some(cs)
    ensures Points(bytes) == Some([c] + cs)
  {
  }
}
