/** The pagination cursor of a comment history: a timestamp and an id, comma separated, in unpadded
    URL-safe base64 (RFC 4648 section 5), the timestamp as in RFC 3339 section 5.6. */
module CommentCursor {
  import opened Basics

  // ----- Decimal numbers -----

  predicate IsDigit(c: char) {
    '0' <= c <= '9'
  }

  predicate AllDigits(s: string) {
    forall i | 0 <= i < |s| :: IsDigit(s[i])
  }

  function DigitChar(n: nat): char
    requires n < 10
  {
    '0' + n as char
  }

  function Pow10(w: nat): (p: nat)
    ensures p > 0
  {
    if w == 0 then 1 else 10 * Pow10(w - 1)
  }

  /** The last w decimal digits of n. */
  function Pad(n: nat, w: nat): (s: string)
    ensures |s| == w && AllDigits(s)
  {
    if w == 0 then "" else Pad(n / 10, w - 1) + [DigitChar(n % 10)]
  }

  function Number(s: string): nat
    requires AllDigits(s)
  {
    if s == "" then 0 else 10 * Number(s[..|s| - 1]) + (s[|s| - 1] - '0') as int
  }

  lemma {:induction false} NumberOfPad(n: nat, w: nat)
    requires n < Pow10(w)
    ensures Number(Pad(n, w)) == n
  {
    if w > 0 {
      NumberOfPad(n / 10, w - 1);
      assert Pad(n, w)[..w - 1] == Pad(n / 10, w - 1);
    }
  }

  /** strconv.Itoa of a natural number. */
  function Decimal(n: nat): (s: string)
    ensures s != "" && AllDigits(s)
  {
    if n < 10 then [DigitChar(n)] else Decimal(n / 10) + [DigitChar(n % 10)]
  }

  lemma {:induction false} NumberOfDecimal(n: nat)
    ensures Number(Decimal(n)) == n
  {
    if n < 10 {
      assert Decimal(n)[..0] == "";
    } else {
      NumberOfDecimal(n / 10);
      assert Decimal(n)[..|Decimal(n)| - 1] == Decimal(n / 10);
    }
  }

  lemma {:induction false} DecimalLength(n: nat, w: nat)
    ensures n < Pow10(w) && w > 0 ==> |Decimal(n)| <= w
    ensures n >= Pow10(w) ==> |Decimal(n)| > w
    decreases w
  {
    if w > 0 { DecimalLength(n / 10, w - 1); }
  }

  /** strconv.ParseInt(s, 10, 32). */
  function ParseInt32(s: string): Option<int> {
    var signed := s != "" && (s[0] == '-' || s[0] == '+');
    var digits := if signed then s[1..] else s;
    if digits == "" || !AllDigits(digits) then None
    else
      var n := if signed && s[0] == '-' then -(Number(digits) as int) else Number(digits);
      if -0x8000_0000 <= n < 0x8000_0000 then Some(n) else None
  }

  // ----- Timestamps -----

  datatype Date = Date(year: int, month: nat, day: nat, hour: nat, minute: nat, second: nat, nanos: nat)

  function DaysIn(month: nat, year: int): nat {
    if month == 2 then (if year % 4 == 0 && (year % 100 != 0 || year % 400 == 0) then 29 else 28)
    else if month in {4, 6, 9, 11} then 30 else 31
  }

  predicate ValidDate(d: Date) {
    && 1 <= d.month <= 12 && 1 <= d.day <= DaysIn(d.month, d.year)
    && d.hour < 24 && d.minute < 60 && d.second < 60 && d.nanos < 1_000_000_000
  }

  /** A number in at least w digits. */
  function AtLeast(n: nat, w: nat): string {
    if n < Pow10(w) then Pad(n, w) else Decimal(n)
  }

  function YearText(year: int): string {
    if year < 0 then "-" + AtLeast(-year, 4) else AtLeast(year, 4)
  }

  /** Everything from the first '-' after the year to the seconds. */
  function Clock(d: Date): string {
    "-" + Pad(d.month, 2) + "-" + Pad(d.day, 2) + "T" + Pad(d.hour, 2) + ":" + Pad(d.minute, 2) + ":" + Pad(d.second, 2)
  }

  function TrimZeros(s: string): string {
    if s != "" && s[|s| - 1] == '0' then TrimZeros(s[..|s| - 1]) else s
  }

  function Zeros(n: nat): (s: string)
    ensures |s| == n && AllDigits(s)
  {
    if n == 0 then "" else Zeros(n - 1) + "0"
  }

  /** The fraction of a second, without trailing zeros, and the UTC mark. */
  function Tail(nanos: nat): string {
    if nanos == 0 then "Z" else "." + TrimZeros(Pad(nanos, 9)) + "Z"
  }

  /** time.RFC3339Nano of a UTC time. */
  function Format(d: Date): string {
    YearText(d.year) + Clock(d) + Tail(d.nanos)
  }

  function DigitsPrefix(s: string): (n: nat)
    ensures n <= |s| && AllDigits(s[..n]) && (n < |s| ==> !IsDigit(s[n]))
  {
    if s == "" || !IsDigit(s[0]) then 0 else
      var n := DigitsPrefix(s[1..]);
      assert s[..n + 1] == [s[0]] + s[1..][..n];
      n + 1
  }

  /** A field of digits. */
  function Field(s: string): Option<nat> {
    if AllDigits(s) then Some(Number(s)) else None
  }

  /** The fraction and zone after the seconds; only the form with Z. Digits beyond the ninth are cut. */
  function ParseTail(s: string): Option<nat> {
    if |s| >= 2 && s[0] == '.' && IsDigit(s[1]) then
      var n := DigitsPrefix(s[1..]);
      var digits := s[1..][..Min(n, 9)];
      if s[1..][n..] == "Z" then Some(Number(digits + Zeros(9 - |digits|))) else None
    else if s == "Z" then Some(0) else None
  }

  /** time.Parse(time.RFC3339Nano, s), for times in UTC written with Z. */
  function ParseDate(s: string): Option<Date> {
    if |s| < 19 || !(s[4] == '-' && s[7] == '-' && s[10] == 'T' && s[13] == ':' && s[16] == ':') then None
    else
      var fields := (Field(s[..4]), Field(s[5..7]), Field(s[8..10]), Field(s[11..13]), Field(s[14..16]),
                     Field(s[17..19]));
      var nanos := ParseTail(s[19..]);
      if fields.0.None? || fields.1.None? || fields.2.None? || fields.3.None? || fields.4.None? || fields.5.None?
        || nanos.None? then None
      else
        var d := Date(fields.0.value, fields.1.value, fields.2.value, fields.3.value, fields.4.value, fields.5.value,
                      nanos.value);
        if ValidDate(d) then Some(d) else None
  }

  // ----- Timestamps round trip -----

  lemma {:induction false} TrimmedDigits(s: string)
    requires AllDigits(s)
    ensures var t := TrimZeros(s);
      |t| <= |s| && AllDigits(t) && t + Zeros(|s| - |t|) == s && (Number(s) != 0 ==> t != "")
  {
    if s != "" && s[|s| - 1] == '0' {
      var r := s[..|s| - 1];
      TrimmedDigits(r);
      var t := TrimZeros(r);
      assert s == r + "0";
      assert t + Zeros(|s| - |t|) == t + Zeros(|r| - |t|) + "0";
    } else {
      assert s + Zeros(0) == s;
    }
  }

  lemma DigitsBefore(t: string, rest: string)
    requires AllDigits(t) && rest != "" && !IsDigit(rest[0])
    ensures DigitsPrefix(t + rest) == |t|
  {
    if t == "" {
      assert t + rest == rest;
    } else {
      assert (t + rest)[1..] == t[1..] + rest;
      DigitsBefore(t[1..], rest);
    }
  }

  lemma TailRoundTrip(nanos: nat)
    requires nanos < 1_000_000_000
    ensures ParseTail(Tail(nanos)) == Some(nanos)
  {
    if nanos != 0 {
      var p := Pad(nanos, 9);
      var t := TrimZeros(p);
      assert Pow10(9) == 1_000_000_000 by { assert Pow10(3) == 1000 && Pow10(6) == 1_000_000; }
      NumberOfPad(nanos, 9);
      TrimmedDigits(p);
      var s := Tail(nanos);
      assert s[1..] == t + "Z";
      DigitsBefore(t, "Z");
      assert IsDigit(s[1]) by { assert s[1] == t[0]; }
      assert s[1..][..|t|] == t && s[1..][|t|..] == "Z";
    }
  }

  /** The positions of the fields in a text with a four-digit year. */
  lemma Layout(y: string, d: Date, tail: string)
    requires |y| == 4
    ensures var s := y + Clock(d) + tail;
      && |s| >= 19 && s[4] == '-' && s[7] == '-' && s[10] == 'T' && s[13] == ':' && s[16] == ':'
      && s[..4] == y && s[5..7] == Pad(d.month, 2) && s[8..10] == Pad(d.day, 2) && s[11..13] == Pad(d.hour, 2)
      && s[14..16] == Pad(d.minute, 2) && s[17..19] == Pad(d.second, 2) && s[19..] == tail
  {
  }

  lemma FieldRead(n: nat, w: nat)
    requires n < Pow10(w)
    ensures Field(Pad(n, w)) == Some(n)
  {
    NumberOfPad(n, w);
  }

  lemma FieldsRead(s: string, d: Date)
    requires |s| >= 19 && s[4] == '-' && s[7] == '-' && s[10] == 'T' && s[13] == ':' && s[16] == ':'
    requires d.year >= 0 && Field(s[..4]) == Some(d.year)
    requires Field(s[5..7]) == Some(d.month) && Field(s[8..10]) == Some(d.day)
    requires Field(s[11..13]) == Some(d.hour)
    requires Field(s[14..16]) == Some(d.minute) && Field(s[17..19]) == Some(d.second)
    requires ParseTail(s[19..]) == Some(d.nanos) && ValidDate(d)
    ensures ParseDate(s) == Some(d)
  {
  }

  lemma DateRoundTrip(d: Date)
    requires ValidDate(d) && 0 <= d.year <= 9999
    ensures ParseDate(Format(d)) == Some(d)
  {
    assert Pow10(2) == 100 && Pow10(4) == 10000 by { assert Pow10(3) == 1000; }
    FieldRead(d.year, 4);
    FieldRead(d.month, 2);
    FieldRead(d.day, 2);
    FieldRead(d.hour, 2);
    FieldRead(d.minute, 2);
    FieldRead(d.second, 2);
    TailRoundTrip(d.nanos);
    Layout(Pad(d.year, 4), d, Tail(d.nanos));
    FieldsRead(Format(d), d);
  }

  /** A year that needs a sign or a fifth digit is not read back. */
  lemma OtherYearsRejected(d: Date)
    requires d.year < 0 || d.year > 9999
    ensures ParseDate(Format(d)).None?
  {
    var s := Format(d);
    if d.year < 0 {
      assert s[0] == '-';
      if |s| >= 19 { assert s[..4][0] == '-'; }
    } else {
      assert Pow10(4) == 10000 by { assert Pow10(3) == 1000; }
      DecimalLength(d.year, 4);
      assert s[4] == Decimal(d.year)[4];
    }
  }

  // ----- Base64 -----

  function Symbol(n: nat): char
    requires n < 64
  {
    if n < 26 then 'A' + n as char else if n < 52 then 'a' + (n - 26) as char else if n < 62 then '0' + (n - 52) as char
    else if n == 62 then '-' else '_'
  }

  function SymbolValue(c: char): (v: Option<nat>)
    ensures v.Some? ==> v.value < 64
  {
    if 'A' <= c <= 'Z' then Some((c - 'A') as nat) else if 'a' <= c <= 'z' then Some((c - 'a') as nat + 26)
    else if '0' <= c <= '9' then Some((c - '0') as nat + 52)
    else if c == '-' then Some(62)
    else if c == '_' then Some(63)
    else None
  }

  predicate Bytes(s: string) {
    forall i | 0 <= i < |s| :: s[i] as int < 256
  }

  /** base64.RawURLEncoding.EncodeToString. */
  function Encode(s: string): string
    requires Bytes(s)
  {
    if s == "" then ""
    else
      var a := s[0] as int;
      if |s| == 1 then [Symbol(a / 4), Symbol(a % 4 * 16)]
      else
        var b := s[1] as int;
        if |s| == 2 then [Symbol(a / 4), Symbol(a % 4 * 16 + b / 16), Symbol(b % 16 * 4)]
        else
          var c := s[2] as int;
          [Symbol(a / 4), Symbol(a % 4 * 16 + b / 16), Symbol(b % 16 * 4 + c / 64), Symbol(c % 64)] + Encode(s[3..])
  }

  function Values(s: string): Option<seq<nat>> {
    if s == "" then Some([])
    else
      var first, rest := SymbolValue(s[0]), Values(s[1..]);
      if first.None? || rest.None? then None else Some([first.value] + rest.value)
  }

  /** The bytes of a list of 6-bit values; unused trailing bits are ignored. */
  function Unpack(v: seq<nat>): Option<string>
    requires forall i | 0 <= i < |v| :: v[i] < 64
  {
    if v == [] then Some("")
    else if |v| == 1 then None
    else
      var a := (v[0] * 4 + v[1] / 16) as char;
      if |v| == 2 then Some([a])
      else
        var b := (v[1] % 16 * 16 + v[2] / 4) as char;
        if |v| == 3 then Some([a, b])
        else
          var c := (v[2] % 4 * 64 + v[3]) as char;
          match Unpack(v[4..])
          case None => None
          case Some(rest) => Some([a, b, c] + rest)
  }

  lemma {:induction false} ValuesBounded(s: string)
    ensures Values(s).Some? ==> forall i | 0 <= i < |Values(s).value| :: Values(s).value[i] < 64
  {
    if s != "" { ValuesBounded(s[1..]); }
  }

  /** The decoder skips line breaks. */
  function SkipBreaks(s: string): string {
    if s == "" then "" else (if s[0] == '\r' || s[0] == '\n' then "" else [s[0]]) + SkipBreaks(s[1..])
  }

  /** base64.RawURLEncoding.DecodeString. */
  function Decode(s: string): Option<string> {
    var v := Values(SkipBreaks(s));
    ValuesBounded(SkipBreaks(s));
    if v.None? then None else Unpack(v.value)
  }

  lemma SymbolBack(n: nat)
    requires n < 64
    ensures SymbolValue(Symbol(n)) == Some(n) && Symbol(n) != '\r' && Symbol(n) != '\n'
  {
  }

  /** The 6-bit values of an encoding. */
  function Sixes(s: string): (v: seq<nat>)
    requires Bytes(s)
    ensures forall i | 0 <= i < |v| :: v[i] < 64
  {
    if s == "" then []
    else
      var a := s[0] as int;
      if |s| == 1 then [a / 4, a % 4 * 16]
      else
        var b := s[1] as int;
        if |s| == 2 then [a / 4, a % 4 * 16 + b / 16, b % 16 * 4]
        else
          var c := s[2] as int;
          [a / 4, a % 4 * 16 + b / 16, b % 16 * 4 + c / 64, c % 64] + Sixes(s[3..])
  }

  function Symbols(v: seq<nat>): (s: string)
    requires forall i | 0 <= i < |v| :: v[i] < 64
    ensures |s| == |v| && forall i | 0 <= i < |v| :: s[i] == Symbol(v[i])
  {
    seq(|v|, i requires 0 <= i < |v| => Symbol(v[i]))
  }

  lemma {:induction false} EncodeIsSymbols(s: string)
    requires Bytes(s)
    ensures Encode(s) == Symbols(Sixes(s))
  {
    if |s| >= 3 {
      EncodeIsSymbols(s[3..]);
      assert Sixes(s)[4..] == Sixes(s[3..]);
      assert Symbols(Sixes(s))[4..] == Symbols(Sixes(s[3..]));
    }
  }

  lemma {:induction false} SymbolsBack(v: seq<nat>)
    requires forall i | 0 <= i < |v| :: v[i] < 64
    ensures Values(Symbols(v)) == Some(v) && SkipBreaks(Symbols(v)) == Symbols(v)
  {
    if v != [] {
      SymbolBack(v[0]);
      SymbolsBack(v[1..]);
      assert Symbols(v)[1..] == Symbols(v[1..]);
      assert [v[0]] + v[1..] == v;
      assert [Symbol(v[0])] + Symbols(v[1..]) == Symbols(v);
    }
  }

  lemma BitsBack(a: nat, b: nat, c: nat)
    requires a < 256 && b < 256 && c < 256
    ensures a / 4 * 4 + (a % 4 * 16 + b / 16) / 16 == a && a / 4 * 4 + a % 4 * 16 / 16 == a
    ensures (a % 4 * 16 + b / 16) % 16 * 16 + (b % 16 * 4 + c / 64) / 4 == b
    ensures (a % 4 * 16 + b / 16) % 16 * 16 + b % 16 * 4 / 4 == b
    ensures (b % 16 * 4 + c / 64) % 4 * 64 + c % 64 == c
  {
  }

  /** The three bytes that four 6-bit values pack, and the values packed, as functions of each other. */
  function FirstByte(p: nat, q: nat): nat { p * 4 + q / 16 }
  function SecondByte(q: nat, r: nat): nat { q % 16 * 16 + r / 4 }
  function ThirdByte(r: nat, t: nat): nat { r % 4 * 64 + t }

  lemma UnpackFour(v: seq<nat>, a: char, b: char, c: char, rest: string)
    requires |v| >= 4 && (forall i | 0 <= i < |v| :: v[i] < 64) && Unpack(v[4..]) == Some(rest)
    requires FirstByte(v[0], v[1]) == a as int
    requires SecondByte(v[1], v[2]) == b as int && ThirdByte(v[2], v[3]) == c as int
    ensures Unpack(v) == Some([a, b, c] + rest)
  {
  }

  lemma UnpackFew(v: seq<nat>, a: char, b: char)
    requires 2 <= |v| <= 3 && (forall i | 0 <= i < |v| :: v[i] < 64) && FirstByte(v[0], v[1]) == a as int
    requires |v| == 3 ==> SecondByte(v[1], v[2]) == b as int
    ensures Unpack(v) == Some(if |v| == 2 then [a] else [a, b])
  {
  }

  lemma ThreeBack(s: string)
    requires Bytes(s) && |s| >= 3 && Unpack(Sixes(s[3..])) == Some(s[3..])
    ensures Unpack(Sixes(s)) == Some(s)
  {
    var v := Sixes(s);
    assert v[4..] == Sixes(s[3..]);
    BitsBack(s[0] as int, s[1] as int, s[2] as int);
    UnpackFour(v, s[0], s[1], s[2], s[3..]);
    assert s == [s[0], s[1], s[2]] + s[3..];
  }

  lemma FewBack(s: string)
    requires Bytes(s) && |s| < 3
    ensures Unpack(Sixes(s)) == Some(s)
  {
    if |s| == 2 {
      BitsBack(s[0] as int, s[1] as int, 0);
      UnpackFew(Sixes(s), s[0], s[1]);
      assert s == [s[0], s[1]];
    } else if |s| == 1 {
      BitsBack(s[0] as int, 0, 0);
      UnpackFew(Sixes(s), s[0], s[0]);
      assert s == [s[0]];
    }
  }

  lemma {:induction false} SixesBack(s: string)
    requires Bytes(s)
    ensures Unpack(Sixes(s)) == Some(s)
  {
    if |s| >= 3 {
      SixesBack(s[3..]);
      ThreeBack(s);
    } else {
      FewBack(s);
    }
  }

  lemma Base64RoundTrip(s: string)
    requires Bytes(s)
    ensures Decode(Encode(s)) == Some(s)
  {
    EncodeIsSymbols(s);
    SymbolsBack(Sixes(s));
    SixesBack(s);
  }

  lemma {:induction false} EncodedLength(s: string)
    requires Bytes(s)
    ensures |Encode(s)| == (4 * |s| + 2) / 3
  {
    if |s| >= 3 { EncodedLength(s[3..]); }
  }

  // ----- Cursors -----

  const MAX_CURSOR: nat := 100

  function Plain(d: Date, id: nat): string {
    Format(d) + "," + Decimal(id)
  }

  /** The pieces of a string between its commas, when there is exactly one comma. */
  function CommaIndex(s: string): (n: nat)
    ensures n <= |s| && (n < |s| ==> s[n] == ',') && (forall i | 0 <= i < n :: s[i] != ',')
  {
    if s == "" || s[0] == ',' then 0 else 1 + CommaIndex(s[1..])
  }

  function Position(date: Option<Date>, id: Option<int>): Option<(Date, int)> {
    if date.None? || id.None? || id.value < 1 then None else Some((date.value, id.value))
  }

  function ParsePlain(text: string): Option<(Date, int)> {
    var n := CommaIndex(text);
    if n == |text| || ',' in text[n + 1..] then None else Position(ParseDate(text[..n]), ParseInt32(text[n + 1..]))
  }

  /** parseCommentCursor. */
  function ParseCursor(value: string): Option<(Date, int)> {
    if |value| > MAX_CURSOR then None
    else match Decode(value)
      case None => None
      case Some(text) => ParsePlain(text)
  }

  predicate DateChar(c: char) {
    IsDigit(c) || c in "-:TZ."
  }

  lemma FormatChars(d: Date)
    requires ValidDate(d)
    ensures forall i | 0 <= i < |Format(d)| :: DateChar(Format(d)[i])
  {
    assert forall i | 0 <= i < |YearText(d.year)| :: DateChar(YearText(d.year)[i]);
    assert forall i | 0 <= i < |Clock(d)| :: DateChar(Clock(d)[i]);
    if d.nanos != 0 { TrimmedDigits(Pad(d.nanos, 9)); }
    assert forall i | 0 <= i < |Tail(d.nanos)| :: DateChar(Tail(d.nanos)[i]);
  }

  lemma PlainBytes(d: Date, id: nat)
    requires ValidDate(d)
    ensures Bytes(Plain(d, id))
  {
    FormatChars(d);
    var s := Plain(d, id);
    forall i | 0 <= i < |s| ensures s[i] as int < 256 {
      if i < |Format(d)| { assert s[i] == Format(d)[i]; }
    }
  }

  /** The cursor a page ends with. */
  function MakeCursor(d: Date, id: nat): string
    requires ValidDate(d)
  {
    PlainBytes(d, id);
    Encode(Plain(d, id))
  }

  lemma CommaSlices(a: string, b: string)
    ensures (a + "," + b)[..|a|] == a && (a + "," + b)[|a| + 1..] == b
  {
  }

  lemma CommaFound(a: string, b: string)
    requires ',' !in a && ',' !in b
    ensures CommaIndex(a + "," + b) == |a| && (a + "," + b)[..|a|] == a && (a + "," + b)[|a| + 1..] == b
  {
    var s := a + "," + b;
    assert s[|a|] == ',';
    assert forall i | 0 <= i < |a| :: s[i] == a[i] != ',';
    CommaSlices(a, b);
  }

  lemma CursorText(d: Date, id: nat)
    requires ValidDate(d)
    ensures ',' !in Format(d) && ',' !in Decimal(id)
  {
    FormatChars(d);
  }

  lemma CursorShort(d: Date, id: nat)
    requires ValidDate(d) && 0 <= d.year <= 9999 && id < 0x8000_0000
    ensures |MakeCursor(d, id)| <= 56
  {
    assert Pow10(4) == 10000 && Pow10(10) == 10_000_000_000 by {
      assert Pow10(3) == 1000 && Pow10(6) == 1_000_000 && Pow10(8) == 100_000_000;
    }
    if d.nanos != 0 { TrimmedDigits(Pad(d.nanos, 9)); }
    DecimalLength(id, 10);
    PlainBytes(d, id);
    EncodedLength(Plain(d, id));
  }

  lemma DecimalParses(id: nat)
    requires id < 0x8000_0000
    ensures ParseInt32(Decimal(id)) == Some(id)
  {
    NumberOfDecimal(id);
  }

  lemma PlainParses(d: Date, id: nat)
    requires ValidDate(d) && 1 <= id < 0x8000_0000
    ensures ParsePlain(Plain(d, id)) == Position(ParseDate(Format(d)), Some(id))
  {
    CursorText(d, id);
    CommaFound(Format(d), Decimal(id));
    DecimalParses(id);
  }

  /** A page's cursor leads back to the exact position it was made for, exactly when its year has
      four digits. */
  lemma CursorRoundTrip(d: Date, id: nat)
    requires ValidDate(d) && 1 <= id < 0x8000_0000
    ensures ParseCursor(MakeCursor(d, id)) == Some((d, id)) <==> 0 <= d.year <= 9999
    ensures !(0 <= d.year <= 9999) ==> ParseCursor(MakeCursor(d, id)).None?
  {
    PlainBytes(d, id);
    Base64RoundTrip(Plain(d, id));
    PlainParses(d, id);
    if 0 <= d.year <= 9999 {
      DateRoundTrip(d);
      CursorShort(d, id);
    } else {
      OtherYearsRejected(d);
    }
  }
}
