/** Which texts are accepted as numbers, times and cursors, and as what. */
module CursorTexts {
  import opened Basics
  import opened CommentCursor

  ghost predicate Digits(s: string) {
    forall c | c in s :: '0' <= c && c <= '9'
  }

  lemma DigitsIff(s: string)
    ensures Digits(s) <==> AllDigits(s)
  {
    assert forall i | 0 <= i < |s| :: s[i] in s;
  }

  // ----- Numbers -----

  /** An optional sign and at least one digit. */
  ghost predicate Integer(s: string, sign: string, digits: string, n: int) {
    && s == sign + digits && (sign == "" || sign == "+" || sign == "-") && digits != "" && AllDigits(digits)
    && n == if sign == "-" then -(Number(digits) as int) else Number(digits)
  }

  lemma IntegerFound(s: string, n: int) returns (sign: string, digits: string)
    requires ParseInt32(s) == Some(n)
    ensures Integer(s, sign, digits, n) && -0x8000_0000 <= n <= 0x7FFF_FFFF
  {
    if s[0] == '-' || s[0] == '+' {
      sign, digits := s[..1], s[1..];
      assert s == sign + digits && sign == [s[0]];
    } else {
      sign, digits := "", s;
      assert s == sign + digits;
    }
  }

  lemma IntegerRead(s: string, sign: string, digits: string, n: int)
    requires Integer(s, sign, digits, n) && -0x8000_0000 <= n <= 0x7FFF_FFFF
    ensures ParseInt32(s) == Some(n)
  {
    assert IsDigit(digits[0]);
    if sign == "" {
      assert s == digits;
    } else {
      assert s[0] == sign[0] && s[1..] == digits;
    }
  }

  /** A text is accepted as a 32-bit number exactly when it is an optional sign and digits, and in range. */
  lemma IntegerAccepted(s: string, n: int)
    ensures ParseInt32(s) == Some(n) <==>
            -0x8000_0000 <= n <= 0x7FFF_FFFF && exists sign, digits :: Integer(s, sign, digits, n)
  {
    if ParseInt32(s) == Some(n) { var sign, digits := IntegerFound(s, n); }
    if -0x8000_0000 <= n <= 0x7FFF_FFFF {
      if sign, digits :| Integer(s, sign, digits, n) { IntegerRead(s, sign, digits, n); }
    }
  }

  // ----- Times -----

  lemma {:induction false} PadOfNumber(s: string)
    requires AllDigits(s)
    ensures Pad(Number(s), |s|) == s
  {
    if s != "" {
      var rest, last := s[..|s| - 1], s[|s| - 1];
      PadOfNumber(rest);
      assert Number(s) / 10 == Number(rest) && Number(s) % 10 == (last - '0') as int;
      assert s == rest + [last];
    }
  }

  /** The nanoseconds of a fraction: its first nine digits, as if zeros followed. */
  function Nanos(digits: string): nat
    requires AllDigits(digits)
  {
    if |digits| >= 9 then Number(digits[..9]) else Number(digits + Zeros(9 - |digits|))
  }

  ghost predicate Fraction(tail: string, digits: string, nanos: nat) {
    AllDigits(digits) && nanos == Nanos(digits) && tail == if digits == "" then "Z" else "." + digits + "Z"
  }

  lemma NoFraction()
    ensures Nanos("") == 0
  {
    assert "" + Zeros(9) == Zeros(9);
    ZerosAreZero(9);
  }

  lemma {:induction false} ZerosAreZero(n: nat)
    ensures Number(Zeros(n)) == 0
  {
    if n > 0 {
      ZerosAreZero(n - 1);
      assert Zeros(n)[..n - 1] == Zeros(n - 1);
    }
  }

  lemma FractionFound(tail: string, nanos: nat) returns (digits: string)
    requires ParseTail(tail) == Some(nanos)
    ensures Fraction(tail, digits, nanos)
  {
    if tail == "Z" {
      NoFraction();
      digits := "";
    } else {
      var rest, n := tail[1..], DigitsPrefix(tail[1..]);
      digits := rest[..n];
      assert rest == digits + rest[n..] == digits + "Z";
      assert tail == [tail[0]] + rest;
      CutAtNine(rest, n);
    }
  }

  lemma CutAtNine(rest: string, n: nat)
    requires n <= |rest| && AllDigits(rest[..n])
    ensures var cut := rest[..Min(n, 9)];
      AllDigits(cut) && Number(cut + Zeros(9 - |cut|)) == Nanos(rest[..n])
  {
    var digits, cut := rest[..n], rest[..Min(n, 9)];
    assert cut == if n >= 9 then digits[..9] else digits;
    assert n < 9 || cut + Zeros(0) == cut;
  }

  lemma FractionAccepted(tail: string, nanos: nat)
    ensures ParseTail(tail) == Some(nanos) <==> exists digits :: Fraction(tail, digits, nanos)
  {
    if ParseTail(tail) == Some(nanos) {
      var digits := FractionFound(tail, nanos);
    }
    if digits :| Fraction(tail, digits, nanos) {
      NoFraction();
      if digits != "" { FractionRead(tail, digits, nanos); }
    }
  }

  lemma FractionRead(tail: string, digits: string, nanos: nat)
    requires Fraction(tail, digits, nanos) && digits != ""
    ensures ParseTail(tail) == Some(nanos)
  {
    assert tail[1..] == digits + "Z";
    DigitsBefore(digits, "Z");
    assert tail[1] == digits[0];
    assert (digits + "Z")[|digits|..] == "Z";
    assert (digits + "Z")[..Min(|digits|, 9)] == if |digits| >= 9 then digits[..9] else digits;
    assert |digits| < 9 || digits[..9] + Zeros(0) == digits[..9];
  }

  /** s spells the valid date d with a four-digit year, and any number of digits of a second's fraction. */
  ghost predicate Spells(s: string, d: Date, digits: string) {
    && ValidDate(d) && 0 <= d.year <= 9999 && AllDigits(digits) && d.nanos == Nanos(digits)
    && s == Pad(d.year, 4)
            + "-" + Pad(d.month, 2) + "-" + Pad(d.day, 2) + "T" + Pad(d.hour, 2) + ":" + Pad(d.minute, 2)
            + ":" + Pad(d.second, 2) + (if digits == "" then "Z" else "." + digits + "Z")
  }

  /** A text is accepted as a time exactly when it spells one, and as that one. */
  lemma TimeAccepted(s: string, d: Date)
    ensures ParseDate(s) == Some(d) <==> exists digits :: Spells(s, d, digits)
  {
    if ParseDate(s) == Some(d) {
      FractionAccepted(s[19..], d.nanos);
      var digits :| Fraction(s[19..], digits, d.nanos);
      AcceptedSpells(s, d, digits);
    }
    if digits :| Spells(s, d, digits) {
      SpelledAccepted(s, d, digits);
    }
  }

  lemma FieldIs(s: string, i: nat, j: nat, n: nat)
    requires i <= j <= |s| && Field(s[i..j]) == Some(n)
    ensures s[i..j] == Pad(n, j - i) && n < Pow10(j - i)
  {
    PadOfNumber(s[i..j]);
    NumberBelow(s[i..j]);
  }

  lemma {:induction false} NumberBelow(s: string)
    requires AllDigits(s)
    ensures Number(s) < Pow10(|s|)
  {
    if s != "" { NumberBelow(s[..|s| - 1]); }
  }

  lemma DateFields(s: string, d: Date)
    requires ParseDate(s) == Some(d)
    ensures |s| >= 19 && s[4] == '-' && s[7] == '-' && s[10] == 'T' && s[13] == ':' && s[16] == ':'
    ensures d.year >= 0 && Field(s[0..4]) == Some(d.year)
    ensures Field(s[5..7]) == Some(d.month) && Field(s[8..10]) == Some(d.day)
    ensures Field(s[11..13]) == Some(d.hour) && Field(s[14..16]) == Some(d.minute)
    ensures Field(s[17..19]) == Some(d.second) && ParseTail(s[19..]) == Some(d.nanos) && ValidDate(d)
  {
    if |s| >= 4 { assert s[0..4] == s[..4]; }
  }

  lemma FieldsPadded(s: string, d: Date)
    requires ParseDate(s) == Some(d)
    ensures |s| >= 19 && 0 <= d.year <= 9999 && ValidDate(d)
    ensures s[0..4] == Pad(d.year, 4) && s[5..7] == Pad(d.month, 2) && s[8..10] == Pad(d.day, 2)
    ensures s[11..13] == Pad(d.hour, 2) && s[14..16] == Pad(d.minute, 2) && s[17..19] == Pad(d.second, 2)
  {
    DateFields(s, d);
    FieldIs(s, 0, 4, d.year);
    FieldIs(s, 5, 7, d.month);
    FieldIs(s, 8, 10, d.day);
    FieldIs(s, 11, 13, d.hour);
    FieldIs(s, 14, 16, d.minute);
    FieldIs(s, 17, 19, d.second);
    assert Pow10(4) == 10000 by { assert Pow10(3) == 1000; }
  }

  lemma InPieces(s: string, y: string, month: string, day: string, hour: string, minute: string, second: string,
                 tail: string)
    requires |s| >= 19 && s[4] == '-' && s[7] == '-' && s[10] == 'T' && s[13] == ':' && s[16] == ':'
    requires s[0..4] == y && s[5..7] == month && s[8..10] == day && s[11..13] == hour && s[14..16] == minute
    requires s[17..19] == second && s[19..] == tail
    ensures s == y + "-" + month + "-" + day + "T" + hour + ":" + minute + ":" + second + tail
  {
  }

  lemma AcceptedSpells(s: string, d: Date, digits: string)
    requires ParseDate(s) == Some(d) && |s| >= 19 && Fraction(s[19..], digits, d.nanos)
    ensures Spells(s, d, digits)
  {
    FieldsPadded(s, d);
    InPieces(s, Pad(d.year, 4), Pad(d.month, 2), Pad(d.day, 2), Pad(d.hour, 2), Pad(d.minute, 2), Pad(d.second, 2),
             s[19..]);
  }

  lemma Regrouped(y: string, month: string, day: string, hour: string, minute: string, second: string, tail: string)
    ensures y + "-" + month + "-" + day + "T" + hour + ":" + minute + ":" + second + tail
         == y + ("-" + month + "-" + day + "T" + hour + ":" + minute + ":" + second) + tail
  {
  }

  lemma PartsRead(d: Date)
    requires ValidDate(d) && 0 <= d.year <= 9999
    ensures Field(Pad(d.year, 4)) == Some(d.year)
    ensures Field(Pad(d.month, 2)) == Some(d.month) && Field(Pad(d.day, 2)) == Some(d.day)
    ensures Field(Pad(d.hour, 2)) == Some(d.hour) && Field(Pad(d.minute, 2)) == Some(d.minute)
    ensures Field(Pad(d.second, 2)) == Some(d.second)
  {
    assert Pow10(2) == 100 && Pow10(4) == 10000 by { assert Pow10(3) == 1000; }
    FieldRead(d.year, 4);
    FieldRead(d.month, 2);
    FieldRead(d.day, 2);
    FieldRead(d.hour, 2);
    FieldRead(d.minute, 2);
    FieldRead(d.second, 2);
  }

  lemma SpelledAccepted(s: string, d: Date, digits: string)
    requires Spells(s, d, digits)
    ensures ParseDate(s) == Some(d)
  {
    var tail := if digits == "" then "Z" else "." + digits + "Z";
    PartsRead(d);
    assert Fraction(tail, digits, d.nanos);
    FractionAccepted(tail, d.nanos);
    Regrouped(Pad(d.year, 4), Pad(d.month, 2), Pad(d.day, 2), Pad(d.hour, 2), Pad(d.minute, 2), Pad(d.second, 2),
              tail);
    Layout(Pad(d.year, 4), d, tail);
    FieldsRead(Pad(d.year, 4) + Clock(d) + tail, d);
  }

  // ----- Base64 -----

  ghost predicate InAlphabet(c: char) {
    'A' <= c <= 'Z' || 'a' <= c <= 'z' || '0' <= c <= '9' || c == '-' || c == '_'
  }

  ghost predicate LineBreak(c: char) {
    c as int == 10 || c as int == 13
  }

  /** The characters that are no line breaks. */
  function Marks(s: string): nat {
    if s == "" then 0 else (if s[0] as int == 10 || s[0] as int == 13 then 0 else 1) + Marks(s[1..])
  }

  lemma {:induction false} ValuesOf(s: string)
    ensures Values(SkipBreaks(s)).Some? <==> forall c | c in s :: LineBreak(c) || InAlphabet(c)
    ensures |SkipBreaks(s)| == Marks(s)
    ensures Values(SkipBreaks(s)).Some? ==> |Values(SkipBreaks(s)).value| == Marks(s)
  {
    if s != "" {
      ValuesOf(s[1..]);
      assert forall c :: c in s <==> c == s[0] || c in s[1..];
      if LineBreak(s[0]) {
        assert SkipBreaks(s) == SkipBreaks(s[1..]);
      } else {
        assert SkipBreaks(s)[1..] == SkipBreaks(s[1..]);
      }
    }
  }

  lemma {:induction false} UnpackAccepts(v: seq<nat>)
    requires forall i | 0 <= i < |v| :: v[i] < 64
    ensures Unpack(v).Some? <==> |v| % 4 != 1
  {
    if |v| >= 4 { UnpackAccepts(v[4..]); }
  }

  /** A text is decoded exactly when, but for line breaks, it is over the URL-safe alphabet and its length is not
      one more than a multiple of four. */
  lemma DecodeAccepts(s: string)
    ensures Decode(s).Some? <==> (forall c | c in s :: LineBreak(c) || InAlphabet(c)) && Marks(s) % 4 != 1
  {
    ValuesOf(s);
    ValuesBounded(SkipBreaks(s));
    if Values(SkipBreaks(s)).Some? { UnpackAccepts(Values(SkipBreaks(s)).value); }
  }

  lemma {:induction false} BreaksSkipped(a: string, c: char, b: string)
    requires LineBreak(c)
    ensures SkipBreaks(a + [c] + b) == SkipBreaks(a + b)
  {
    if a == "" {
      assert (a + [c] + b)[1..] == b == a + b;
    } else {
      BreaksSkipped(a[1..], c, b);
      assert (a + [c] + b)[1..] == a[1..] + [c] + b && (a + b)[1..] == a[1..] + b;
    }
  }

  /** w are the values of a text unpacked from v, but for the unused bits of an odd last one. */
  ghost predicate Agrees(w: seq<nat>, v: seq<nat>) {
    && |w| == |v| && (forall i | 0 <= i < |v| - 1 :: w[i] == v[i])
    && (|v| > 0 && |v| % 4 == 0 ==> w[|v| - 1] == v[|v| - 1])
  }

  lemma SixesOf(a: char, b: char, c: char, rest: string)
    requires a as int < 256 && b as int < 256 && c as int < 256 && Bytes(rest)
    ensures Bytes([a, b, c] + rest) && Bytes([a, b]) && Bytes([a])
    ensures Sixes([a]) == [a as int / 4, a as int % 4 * 16]
    ensures Sixes([a, b]) == [a as int / 4, a as int % 4 * 16 + b as int / 16, b as int % 16 * 4]
    ensures Sixes([a, b, c] + rest)
         == [a as int / 4, a as int % 4 * 16 + b as int / 16, b as int % 16 * 4 + c as int / 64, c as int % 64]
            + Sixes(rest)
  {
    assert ([a, b, c] + rest)[3..] == rest;
  }

  /** The six upper bits of a first byte, and what a first and a second byte share out. */
  function UpperSix(a: char): nat {
    a as int / 4
  }

  function Shared(a: char, b: char): nat {
    a as int % 4 * 16 + b as int / 16
  }

  /** The one or two bytes of two or three values, and the first values they give back. */
  lemma BytesOf(v: seq<nat>) returns (a: char, b: char)
    requires 2 <= |v| <= 3 && forall i | 0 <= i < |v| :: v[i] < 64
    ensures a as int < 256 && b as int < 256 && Unpack(v) == Some(if |v| == 2 then [a] else [a, b])
    ensures UpperSix(a) == v[0] && (|v| == 3 ==> Shared(a, b) == v[1])
  {
    var p, q, r := v[0], v[1], if |v| == 3 then v[2] else 0;
    FourBack(p, q, r, 0);
    a, b := FirstByte(p, q) as char, SecondByte(q, r) as char;
    UnpackFew(v, a, b);
  }

  lemma FewSixes(t: string)
    requires Bytes(t) && 1 <= |t| <= 2
    ensures |Sixes(t)| == |t| + 1 && Sixes(t)[0] == UpperSix(t[0])
    ensures |t| == 2 ==> Sixes(t)[1] == Shared(t[0], t[1])
  {
  }

  lemma FewAgree(w: seq<nat>, v: seq<nat>)
    requires 2 <= |v| <= 3 && |w| == |v| && w[0] == v[0] && (|v| == 3 ==> w[1] == v[1])
    ensures Agrees(w, v)
  {
  }

  lemma FewUnpacked(v: seq<nat>) returns (t: string)
    requires 2 <= |v| <= 3 && forall i | 0 <= i < |v| :: v[i] < 64
    ensures Unpack(v) == Some(t) && Bytes(t) && Agrees(Sixes(t), v)
  {
    var a, b := BytesOf(v);
    t := if |v| == 2 then [a] else [a, b];
    FewSixes(t);
    FewAgree(Sixes(t), v);
  }

  lemma FourUnpacked(v: seq<nat>, rest: string)
    requires |v| >= 4 && (forall i | 0 <= i < |v| :: v[i] < 64)
    requires Unpack(v[4..]) == Some(rest) && Bytes(rest) && Agrees(Sixes(rest), v[4..])
    ensures Unpack(v).Some? && Bytes(Unpack(v).value) && Agrees(Sixes(Unpack(v).value), v)
  {
    FourBack(v[0], v[1], v[2], v[3]);
    var a, b, c := FirstByte(v[0], v[1]) as char, SecondByte(v[1], v[2]) as char, ThirdByte(v[2], v[3]) as char;
    UnpackFour(v, a, b, c, rest);
    SixesOf(a, b, c, rest);
    FourAgree(v, Sixes(rest));
  }

  lemma FourAgree(v: seq<nat>, rest: seq<nat>)
    requires |v| >= 4 && Agrees(rest, v[4..])
    ensures Agrees([v[0], v[1], v[2], v[3]] + rest, v)
  {
    assert forall i | 4 <= i < |v| :: v[i] == v[4..][i - 4];
  }

  /** What is decoded encodes back to the symbols it came from, but for the unused bits of an odd last one. */
  lemma {:induction false} UnpackedFrom(v: seq<nat>)
    requires (forall i | 0 <= i < |v| :: v[i] < 64) && Unpack(v).Some?
    ensures Bytes(Unpack(v).value) && Agrees(Sixes(Unpack(v).value), v)
  {
    if |v| >= 4 {
      UnpackedFrom(v[4..]);
      FourUnpacked(v, Unpack(v[4..]).value);
    } else if |v| >= 2 {
      var t := FewUnpacked(v);
    }
  }

  lemma FourBack(p: nat, q: nat, r: nat, t: nat)
    requires p < 64 && q < 64 && r < 64 && t < 64
    ensures FirstByte(p, q) < 256 && SecondByte(q, r) < 256 && ThirdByte(r, t) < 256
    ensures FirstByte(p, q) / 4 == p && FirstByte(p, q) % 4 * 16 + SecondByte(q, r) / 16 == q
    ensures SecondByte(q, r) % 16 * 4 + ThirdByte(r, t) / 64 == r && ThirdByte(r, t) % 64 == t
  {
  }

  lemma {:induction false} ValuesAt(s: string)
    requires Values(s).Some?
    ensures |Values(s).value| == |s| && forall i | 0 <= i < |s| :: SymbolValue(s[i]) == Some(Values(s).value[i])
  {
    if s != "" { ValuesAt(s[1..]); }
  }

  lemma SymbolOf(c: char)
    requires SymbolValue(c).Some?
    ensures Symbol(SymbolValue(c).value) == c
  {
  }

  lemma {:induction false} NoBreaks(s: string)
    requires forall c | c in s :: !LineBreak(c)
    ensures SkipBreaks(s) == s
  {
    if s != "" {
      NoBreaks(s[1..]);
      assert s[0] in s && s == [s[0]] + s[1..];
    }
  }

  /** Line breaks are skipped wherever they stand. */
  lemma BreaksIgnored(a: string, c: char, b: string)
    requires LineBreak(c)
    ensures Decode(a + [c] + b) == Decode(a + b)
  {
    BreaksSkipped(a, c, b);
  }

  lemma SameSymbols(s: string, v: seq<nat>, t: string)
    requires Values(s) == Some(v) && (forall i | 0 <= i < |v| :: v[i] < 64) && Bytes(t) && Agrees(Sixes(t), v)
    ensures |Encode(t)| == |s| && forall i | 0 <= i < |s| - 1 :: Encode(t)[i] == s[i]
    ensures |s| % 4 == 0 ==> Encode(t) == s
  {
    ValuesAt(s);
    EncodeIsSymbols(t);
    forall i | 0 <= i < |s| ensures Symbol(v[i]) == s[i] { SymbolOf(s[i]); }
  }

  /** What a text without line breaks is decoded to encodes to that text, but for the unused bits of a last symbol
      outside a group of four. */
  lemma DecodedFrom(s: string, t: string)
    requires Decode(s) == Some(t) && forall x | x in s :: !LineBreak(x)
    ensures Bytes(t) && |Encode(t)| == |s| && forall i | 0 <= i < |s| - 1 :: Encode(t)[i] == s[i]
    ensures |s| % 4 == 0 ==> Encode(t) == s
  {
    NoBreaks(s);
    ValuesBounded(s);
    UnpackedFrom(Values(s).value);
    SameSymbols(s, Values(s).value, t);
  }

  // ----- Cursors -----

  /** A time, a comma and a positive 32-bit number. */
  ghost predicate Cited(text: string, a: string, b: string, d: Date, id: int) {
    && text == a + "," + b && ',' !in a && ',' !in b
    && (exists digits :: Spells(a, d, digits))
    && (exists sign, digits :: Integer(b, sign, digits, id))
    && 1 <= id <= 0x7FFF_FFFF
  }

  lemma CommaSplits(text: string)
    ensures var n := CommaIndex(text);
      n < |text| ==> text == text[..n] + "," + text[n + 1..] && ',' !in text[..n]
  {
  }

  lemma PlainCited(text: string, d: Date, id: int) returns (a: string, b: string)
    requires ParsePlain(text) == Some((d, id))
    ensures Cited(text, a, b, d, id)
  {
    var n := CommaIndex(text);
    a, b := text[..n], text[n + 1..];
    CommaSplits(text);
    PartsCited(text, a, b, d, id);
  }

  lemma PartsCited(text: string, a: string, b: string, d: Date, id: int)
    requires text == a + "," + b && ',' !in a && ',' !in b
    requires ParseDate(a) == Some(d) && ParseInt32(b) == Some(id) && id >= 1
    ensures Cited(text, a, b, d, id)
  {
    TimeAccepted(a, d);
    IntegerAccepted(b, id);
  }

  lemma CitedPlain(text: string, a: string, b: string, d: Date, id: int)
    requires Cited(text, a, b, d, id)
    ensures ParsePlain(text) == Some((d, id))
  {
    CommaFound(a, b);
    TimeAccepted(a, d);
    IntegerAccepted(b, id);
  }

  /** A cursor is accepted exactly when it has at most 100 characters and decodes to a time, a comma and a
      positive number, and as these. */
  lemma CursorAccepted(value: string, d: Date, id: int)
    ensures ParseCursor(value) == Some((d, id)) <==>
            |value| <= 100 && Decode(value).Some? && exists a, b :: Cited(Decode(value).value, a, b, d, id)
  {
    if ParseCursor(value) == Some((d, id)) { var a, b := PlainCited(Decode(value).value, d, id); }
    if Decode(value).Some? {
      if a, b :| Cited(Decode(value).value, a, b, d, id) { CitedPlain(Decode(value).value, a, b, d, id); }
    }
  }
}
