/** The opaque page cursor: a row key printed as `timestamp|id`, in unpadded base64url
    (section 5 of RFC 4648). */
module Cursor {
  import opened Results
  import opened Ordering

  type Byte = b: int | 0 <= b < 256

  type Sextet = v: int | 0 <= v < 64

  const BAR: Byte := 124

  /** The text forms of timestamps and UUIDs, as UTF-8 bytes. Reading covers decoding the bytes,
      `fromisoformat` with its check for a time zone, and the UUID constructor. */
  datatype Format = Format(
    showTime: int -> seq<Byte>,
    readTime: seq<Byte> -> Option<int>,
    showId: nat -> seq<Byte>,
    readId: seq<Byte> -> Option<nat>)

  /** Printed values read back, and a timestamp contains no `|`. */
  ghost predicate Lossless(f: Format) {
    && (forall t :: f.readTime(f.showTime(t)) == Some(t) && BAR !in f.showTime(t))
    && (forall i: nat :: f.readId(f.showId(i)) == Some(i))
  }

  // The base64url alphabet.

  function Digit(v: Sextet): char {
    if v < 26 then (65 + v) as char
    else if v < 52 then (71 + v) as char
    else if v < 62 then (v - 4) as char
    else if v == 62 then '-' else '_'
  }

  /** Python translates `-` and `_` to the standard alphabet and keeps its `+` and `/`. */
  function Value(c: char): Option<Sextet> {
    if 'A' <= c <= 'Z' then Some(c as int - 65)
    else if 'a' <= c <= 'z' then Some(c as int - 71)
    else if '0' <= c <= '9' then Some(c as int + 4)
    else if c == '-' || c == '+' then Some(62)
    else if c == '_' || c == '/' then Some(63)
    else None
  }

  /** The bits of the bytes, six at a time; a last incomplete group is filled up with zeros. */
  function Sextets(b: seq<Byte>): (v: seq<Sextet>)
    ensures |v| % 4 in {0, 2, 3}
  {
    if |b| == 0 then []
    else if |b| == 1 then [b[0] / 4, b[0] % 4 * 16]
    else if |b| == 2 then [b[0] / 4, b[0] % 4 * 16 + b[1] / 16, b[1] % 16 * 4]
    else
      [b[0] / 4, b[0] % 4 * 16 + b[1] / 16, b[1] % 16 * 4 + b[2] / 64, b[2] % 64]
      + Sextets(b[3..])
  }

  function Digits(v: seq<Sextet>): (s: string)
    ensures |s| == |v| && forall i :: 0 <= i < |v| ==> s[i] == Digit(v[i])
  {
    seq(|v|, i requires 0 <= i < |v| => Digit(v[i]))
  }

  /** urlsafe_b64encode */
  function Encode(b: seq<Byte>): string {
    Digits(Sextets(b)) + Padding(|Sextets(b)|)
  }

  /** rstrip("=") */
  function Strip(s: string): string {
    if s != "" && s[|s| - 1] == '=' then Strip(s[..|s| - 1]) else s
  }

  function Padding(n: nat): string {
    seq((4 - n % 4) % 4, _ => '=')
  }

  /** binascii.a2b_base64 in its lenient mode: `quad` counts the digits of the current group, `left`
      holds their bits not yet written out, and characters outside the alphabet are skipped. A
      complete padding ends the input. */
  function Scan(s: string, quad: nat, left: nat, pads: nat): Option<seq<Byte>>
    requires quad < 4 && left < 64 && (quad == 2 ==> left < 16) && (quad == 3 ==> left < 4)
  {
    if s == "" then
      if quad == 0 then Some([]) else None
    else if s[0] == '=' then
      if quad >= 2 && quad + pads + 1 >= 4 then Some([])
      else Scan(s[1..], quad, left, if quad >= 2 then pads + 1 else pads)
    else match Value(s[0])
      case None => Scan(s[1..], quad, left, pads)
      case Some(v) =>
        if quad == 0 then Scan(s[1..], 1, v, 0)
        else if quad == 1 then Emit(left * 4 + v / 16, Scan(s[1..], 2, v % 16, 0))
        else if quad == 2 then Emit(left * 16 + v / 4, Scan(s[1..], 3, v % 4, 0))
        else Emit(left * 64 + v, Scan(s[1..], 0, 0, 0))
  }

  function Emit(b: Byte, rest: Option<seq<Byte>>): Option<seq<Byte>> {
    match rest case None => None case Some(bs) => Some([b] + bs)
  }

  function Find(b: seq<Byte>, x: Byte): (i: nat)
    ensures i <= |b|
  {
    if b == [] || b[0] == x then 0 else 1 + Find(b[1..], x)
  }

  function EncodeCursor(f: Format, k: Key): string {
    Strip(Encode(f.showTime(k.at) + [BAR] + f.showId(k.id)))
  }

  function DecodeCursor(f: Format, value: Option<string>): Result<Option<Key>> {
    match value
    case None => Ok(None)
    case Some(s) =>
      if exists c :: c in s && c as int >= 128 then Err(InvalidCursor) else
        match Scan(s + Padding(|s|), 0, 0, 0)
        case None => Err(InvalidCursor)
        case Some(raw) =>
          var i := Find(raw, BAR);
          if i == |raw| then Err(InvalidCursor) else
            match (f.readTime(raw[..i]), f.readId(raw[i + 1..]))
            case (Some(at), Some(id)) => Ok(Some(Key(at, id)))
            case _ => Err(InvalidCursor)
  }

  // Decoding undoes encoding.

  lemma DigitValue(v: Sextet)
    ensures Value(Digit(v)) == Some(v) && Digit(v) != '=' && Digit(v) as int < 128
  {}

  /** What `Strip` leaves of a padded text can be padded again from its length alone. */
  lemma StripPadded(s: string)
    requires |s| % 4 in {0, 2, 3} && (s != "" ==> s[|s| - 1] != '=')
    ensures Strip(s + Padding(|s|)) == s
  {
    var p := Padding(|s|);
    StripAll(p);
    if s == "" {
      assert s + p == s;
    } else {
      StripPrefix(s, p);
    }
  }

  lemma {:induction false} StripAll(p: string)
    requires forall i :: 0 <= i < |p| ==> p[i] == '='
    ensures Strip(p) == ""
    decreases |p|
  {
    if p != "" { StripAll(p[..|p| - 1]); }
  }

  lemma {:induction false} StripPrefix(p: string, s: string)
    requires p != "" && p[|p| - 1] != '='
    ensures Strip(p + s) == p + Strip(s)
    decreases |s|
  {
    if s == "" {
      assert p + s == p;
    } else if s[|s| - 1] == '=' {
      assert (p + s)[..|p + s| - 1] == p + s[..|s| - 1];
      StripPrefix(p, s[..|s| - 1]);
    }
  }

  lemma ScanDigit(v: Sextet, s: string, quad: nat, left: nat)
    requires quad < 4 && left < 64 && (quad == 2 ==> left < 16) && (quad == 3 ==> left < 4)
    ensures Scan([Digit(v)] + s, quad, left, 0) ==
            if quad == 0 then Scan(s, 1, v, 0)
            else if quad == 1 then Emit(left * 4 + v / 16, Scan(s, 2, v % 16, 0))
            else if quad == 2 then Emit(left * 16 + v / 4, Scan(s, 3, v % 4, 0))
            else Emit(left * 64 + v, Scan(s, 0, 0, 0))
  {
    DigitValue(v);
    var t := [Digit(v)] + s;
    assert t[0] == Digit(v) && t[1..] == s;
  }

  lemma DigitsCons(v: Sextet, vs: seq<Sextet>)
    ensures Digits([v] + vs) == [Digit(v)] + Digits(vs)
  {}

  /** Reading one more digit off the front of the digits `vs` followed by `end`. */
  lemma ScanNext(v: Sextet, vs: seq<Sextet>, end: string, quad: nat, left: nat)
    requires quad < 4 && left < 64 && (quad == 2 ==> left < 16) && (quad == 3 ==> left < 4)
    ensures Scan(Digits([v] + vs) + end, quad, left, 0) ==
            var s := Digits(vs) + end;
            if quad == 0 then Scan(s, 1, v, 0)
            else if quad == 1 then Emit(left * 4 + v / 16, Scan(s, 2, v % 16, 0))
            else if quad == 2 then Emit(left * 16 + v / 4, Scan(s, 3, v % 4, 0))
            else Emit(left * 64 + v, Scan(s, 0, 0, 0))
  {
    DigitsCons(v, vs);
    assert Digits([v] + vs) + end == [Digit(v)] + (Digits(vs) + end);
    ScanDigit(v, Digits(vs) + end, quad, left);
  }

  lemma ScanEnd(quad: nat)
    requires quad in {2, 3}
    ensures Scan(Digits([]) + Padding(quad), quad, 0, 0) == Some([])
  {
    var end := Padding(quad);
    assert Digits([]) + end == end;
    if quad == 2 {
      assert end == ['=', '='] && end[1..] == ['='];
      assert Scan(['='], 2, 0, 1) == Some([]);
    }
  }

  /** The bits of three bytes, six at a time and back. */
  lemma Bits(b0: Byte, b1: Byte, b2: Byte)
    ensures var d0, d1, d2, d3 := b0 / 4, b0 % 4 * 16 + b1 / 16, b1 % 16 * 4 + b2 / 64, b2 % 64;
      && d0 * 4 + d1 / 16 == b0
      && d1 % 16 * 16 + d2 / 4 == b1
      && d2 % 4 * 64 + d3 == b2
  {}

  lemma Scan1(b0: Byte)
    ensures Scan(Encode([b0]), 0, 0, 0) == Some([b0])
  {
    var d0, d1 := b0 / 4, b0 % 4 * 16;
    Bits(b0, 0, 0);
    assert Sextets([b0]) == [d0] + ([d1] + []);
    assert Encode([b0]) == Digits([d0] + ([d1] + [])) + Padding(2);
    assert d1 % 16 == 0 && d0 * 4 + d1 / 16 == b0;
    ScanTwo(d0, d1);
    assert [b0] == [b0] + [];
  }

  lemma ScanTwo(d0: Sextet, d1: Sextet)
    requires d1 % 16 == 0
    ensures Scan(Digits([d0] + ([d1] + [])) + Padding(2), 0, 0, 0) == Some([d0 * 4 + d1 / 16] + [])
  {
    var end := Padding(2);
    ScanNext(d0, [d1] + [], end, 0, 0);
    ScanNext(d1, [], end, 1, d0);
    ScanEnd(2);
  }

  lemma Scan2(b0: Byte, b1: Byte)
    ensures Scan(Encode([b0, b1]), 0, 0, 0) == Some([b0, b1])
  {
    var d0, d1, d2 := b0 / 4, b0 % 4 * 16 + b1 / 16, b1 % 16 * 4;
    Bits(b0, b1, 0);
    assert Sextets([b0, b1]) == [d0] + ([d1] + ([d2] + []));
    assert Encode([b0, b1]) == Digits([d0] + ([d1] + ([d2] + []))) + Padding(3);
    assert d2 % 4 == 0 && d1 % 16 * 16 + d2 / 4 == b1;
    ScanThree(d0, d1, d2);
    assert [b0, b1] == [b0] + ([b1] + []);
  }

  lemma ScanThree(d0: Sextet, d1: Sextet, d2: Sextet)
    requires d2 % 4 == 0
    ensures Scan(Digits([d0] + ([d1] + ([d2] + []))) + Padding(3), 0, 0, 0)
            == Some([d0 * 4 + d1 / 16] + ([d1 % 16 * 16 + d2 / 4] + []))
  {
    var end := Padding(3);
    ScanNext(d0, [d1] + ([d2] + []), end, 0, 0);
    ScanNext(d1, [d2] + [], end, 1, d0);
    ScanNext(d2, [], end, 2, d1 % 16);
    ScanEnd(3);
  }

  lemma ScanFour(d0: Sextet, d1: Sextet, d2: Sextet, d3: Sextet, vs: seq<Sextet>, end: string, rest: seq<Byte>)
    requires Scan(Digits(vs) + end, 0, 0, 0) == Some(rest)
    ensures Scan(Digits([d0] + ([d1] + ([d2] + ([d3] + vs)))) + end, 0, 0, 0)
            == Some([d0 * 4 + d1 / 16] + ([d1 % 16 * 16 + d2 / 4] + ([d2 % 4 * 64 + d3] + rest)))
  {
    ScanNext(d0, [d1] + ([d2] + ([d3] + vs)), end, 0, 0);
    ScanNext(d1, [d2] + ([d3] + vs), end, 1, d0);
    ScanNext(d2, [d3] + vs, end, 2, d1 % 16);
    ScanNext(d3, vs, end, 3, d2 % 4);
  }

  lemma Scan3(b0: Byte, b1: Byte, b2: Byte, vs: seq<Sextet>, end: string, rest: seq<Byte>)
    requires Scan(Digits(vs) + end, 0, 0, 0) == Some(rest)
    ensures Scan(Digits([b0 / 4, b0 % 4 * 16 + b1 / 16, b1 % 16 * 4 + b2 / 64, b2 % 64] + vs) + end, 0, 0, 0)
            == Some([b0, b1, b2] + rest)
  {
    var d0, d1, d2, d3 := b0 / 4, b0 % 4 * 16 + b1 / 16, b1 % 16 * 4 + b2 / 64, b2 % 64;
    Bits(b0, b1, b2);
    assert [d0, d1, d2, d3] + vs == [d0] + ([d1] + ([d2] + ([d3] + vs)));
    ScanFour(d0, d1, d2, d3, vs, end, rest);
    assert [b0, b1, b2] + rest == [b0] + ([b1] + ([b2] + rest));
  }

  /** Three bytes are four digits, and do not change the padding. */
  lemma EncodeGroup(b: seq<Byte>)
    requires |b| >= 3
    ensures var vs := Sextets(b[3..]);
      Encode(b)
      == Digits([b[0] / 4, b[0] % 4 * 16 + b[1] / 16, b[1] % 16 * 4 + b[2] / 64, b[2] % 64] + vs) + Padding(|vs|)
  {
    assert |Sextets(b)| == 4 + |Sextets(b[3..])|;
    assert Padding(|Sextets(b)|) == Padding(|Sextets(b[3..])|);
  }

  lemma {:induction false} ScanEncode(b: seq<Byte>)
    ensures Scan(Encode(b), 0, 0, 0) == Some(b)
  {
    if |b| == 0 {
    } else if |b| == 1 {
      Scan1(b[0]);
      assert b == [b[0]];
    } else if |b| == 2 {
      Scan2(b[0], b[1]);
      assert b == [b[0], b[1]];
    } else {
      ScanEncode(b[3..]);
      var vs := Sextets(b[3..]);
      EncodeGroup(b);
      Scan3(b[0], b[1], b[2], vs, Padding(|vs|), b[3..]);
      assert b == [b[0], b[1], b[2]] + b[3..];
    }
  }

  lemma {:induction false} FindFirst(a: seq<Byte>, x: Byte, c: seq<Byte>)
    requires x !in a
    ensures Find(a + [x] + c, x) == |a|
  {
    var b := a + [x] + c;
    if a != [] {
      assert b[1..] == a[1..] + [x] + c;
      FindFirst(a[1..], x, c);
    }
  }

  /** Every cursor the API hands out reads back as the row key it was made from. */
  lemma CursorRoundTrip(f: Format, k: Key)
    requires Lossless(f)
    ensures DecodeCursor(f, Some(EncodeCursor(f, k))) == Ok(Some(k))
  {
    var at, id := f.showTime(k.at), f.showId(k.id);
    var raw := at + [BAR] + id;
    var digits := Digits(Sextets(raw));
    forall i | 0 <= i < |digits|
      ensures digits[i] != '=' && digits[i] as int < 128
    {
      DigitValue(Sextets(raw)[i]);
    }
    StripPadded(digits);
    ScanEncode(raw);
    FindFirst(at, BAR, id);
    assert raw[..|at|] == at && raw[|at| + 1..] == id;
  }

  /** No two rows share a cursor. */
  lemma CursorInjective(f: Format, k: Key, l: Key)
    requires Lossless(f) && EncodeCursor(f, k) == EncodeCursor(f, l)
    ensures k == l
  {
    CursorRoundTrip(f, k);
    CursorRoundTrip(f, l);
  }
}
