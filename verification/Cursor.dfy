/** The opaque cursor of `GET /v1/entries`: compact JSON in URL-safe base64 without padding. */
module Cursor {
  import opened Common

  type Byte = b: nat | b < 256

  // ---- Base64 with the URL-safe alphabet (section 5 of RFC 4648) ----

  function Letter(v: nat): char
    requires v < 64
  {
    if v < 26 then 'A' + v as char
    else if v < 52 then 'a' + (v - 26) as char
    else if v < 62 then '0' + (v - 52) as char
    else if v == 62 then '-'
    else '_'
  }

  function ValueOf(c: char): Option<nat> {
    if 'A' <= c <= 'Z' then Some((c - 'A') as nat)
    else if 'a' <= c <= 'z' then Some((c - 'a') as nat + 26)
    else if '0' <= c <= '9' then Some((c - '0') as nat + 52)
    else if c == '-' then Some(62)
    else if c == '_' then Some(63)
    else None
  }

  lemma {:induction false} LetterRoundTrip(v: nat)
    requires v < 64
    ensures ValueOf(Letter(v)) == Some(v) && Letter(v) != '='
  {
  }

  /** The letters stand for their values in the order A-Z, a-z, 0-9, `-`, `_`. */
  lemma {:induction false} LetterCode(v: nat)
    requires v < 64
    ensures v < 26 ==> Letter(v) as int == 65 + v
    ensures 26 <= v < 52 ==> Letter(v) as int == 97 + (v - 26)
    ensures 52 <= v < 62 ==> Letter(v) as int == 48 + (v - 52)
    ensures v == 62 ==> Letter(v) == '-'
    ensures v == 63 ==> Letter(v) == '_'
  {
  }

  /** The four letters for three bytes. */
  function Group(b0: Byte, b1: Byte, b2: Byte): string {
    [Letter(b0 / 4), Letter(b0 % 4 * 16 + b1 / 16), Letter(b1 % 16 * 4 + b2 / 64), Letter(b2 % 64)]
  }

  /** Three bytes become four letters; one or two left over become two or three, and padding. */
  function Encode64(b: seq<Byte>): string {
    if |b| >= 3 then
      Group(b[0], b[1], b[2]) + Encode64(b[3..])
    else if |b| == 2 then
      Group(b[0], b[1], 0)[..3] + "="
    else if |b| == 1 then
      Group(b[0], 0, 0)[..2] + "=="
    else
      ""
  }

  function Decode64(s: string): Option<seq<Byte>> {
    if s == "" then Some([])
    else if |s| < 4 then None
    else
      var v0 :- ValueOf(s[0]);
      var v1 :- ValueOf(s[1]);
      var b0: nat := v0 * 4 + v1 / 16;
      if b0 >= 256 then None
      else if s[2..] == "==" then Some([b0])
      else
        var v2 :- ValueOf(s[2]);
        var b1: nat := v1 % 16 * 16 + v2 / 4;
        if b1 >= 256 then None
        else if s[3..] == "=" then Some([b0, b1])
        else
          var v3 :- ValueOf(s[3]);
          var b2: nat := v2 % 4 * 64 + v3;
          if b2 >= 256 then None
          else
            var rest :- Decode64(s[4..]);
            Some([b0, b1, b2] + rest)
  }

  lemma {:induction false} Recombine(b0: Byte, b1: Byte, b2: Byte)
    ensures
      var v0, v1, v2, v3 := b0 / 4, b0 % 4 * 16 + b1 / 16, b1 % 16 * 4 + b2 / 64, b2 % 64;
      v0 * 4 + v1 / 16 == b0 && v1 % 16 * 16 + v2 / 4 == b1 && v2 % 4 * 64 + v3 == b2
  {
  }

  /** Four letters spell the same 24 bits as their three bytes, most significant first. */
  lemma {:induction false} GroupBits(b0: Byte, b1: Byte, b2: Byte) returns (v0: nat, v1: nat, v2: nat, v3: nat)
    ensures v0 < 64 && v1 < 64 && v2 < 64 && v3 < 64
    ensures v0 * 262144 + v1 * 4096 + v2 * 64 + v3 == b0 * 65536 + b1 * 256 + b2
    ensures Group(b0, b1, b2) == [Letter(v0), Letter(v1), Letter(v2), Letter(v3)]
  {
    v0, v1, v2, v3 := b0 / 4, b0 % 4 * 16 + b1 / 16, b1 % 16 * 4 + b2 / 64, b2 % 64;
  }

  lemma {:induction false} GroupRoundTrip(b0: Byte, b1: Byte, b2: Byte, s: string, rest: seq<Byte>)
    requires Decode64(s) == Some(rest)
    ensures Decode64(Group(b0, b1, b2) + s) == Some([b0, b1, b2] + rest)
  {
    Recombine(b0, b1, b2);
    LettersDecode(b0, b1, b2, b0 / 4, b0 % 4 * 16 + b1 / 16, b1 % 16 * 4 + b2 / 64, b2 % 64, s, rest);
  }

  lemma {:induction false} LettersDecode(b0: Byte, b1: Byte, b2: Byte, v0: nat, v1: nat, v2: nat, v3: nat,
                                         s: string, rest: seq<Byte>)
    requires v0 < 64 && v1 < 64 && v2 < 64 && v3 < 64
    requires v0 * 4 + v1 / 16 == b0 && v1 % 16 * 16 + v2 / 4 == b1 && v2 % 4 * 64 + v3 == b2
    requires Decode64(s) == Some(rest)
    ensures Decode64([Letter(v0), Letter(v1), Letter(v2), Letter(v3)] + s) == Some([b0, b1, b2] + rest)
  {
    LetterRoundTrip(v0);
    LetterRoundTrip(v1);
    LetterRoundTrip(v2);
    LetterRoundTrip(v3);
    LetterValuesDecode(b0, b1, b2, v0, v1, v2, v3, [Letter(v0), Letter(v1), Letter(v2), Letter(v3)] + s, rest);
  }

  lemma {:induction false} LetterValuesDecode(b0: Byte, b1: Byte, b2: Byte, v0: nat, v1: nat, v2: nat, v3: nat,
                                              all: string, rest: seq<Byte>)
    requires |all| >= 4 && all[2] != '=' && all[3] != '='
    requires ValueOf(all[0]) == Some(v0) && ValueOf(all[1]) == Some(v1)
    requires ValueOf(all[2]) == Some(v2) && ValueOf(all[3]) == Some(v3)
    requires v0 * 4 + v1 / 16 == b0 && v1 % 16 * 16 + v2 / 4 == b1 && v2 % 4 * 64 + v3 == b2
    requires Decode64(all[4..]) == Some(rest)
    ensures Decode64(all) == Some([b0, b1, b2] + rest)
  {
    assert all[2..][0] != '=' && all[3..][0] != '=';
  }

  lemma {:induction false} TwoRoundTrip(b0: Byte, b1: Byte)
    ensures Decode64(Group(b0, b1, 0)[..3] + "=") == Some([b0, b1])
  {
    var s := Group(b0, b1, 0)[..3] + "=";
    Recombine(b0, b1, 0);
    LetterRoundTrip(b0 / 4);
    LetterRoundTrip(b0 % 4 * 16 + b1 / 16);
    LetterRoundTrip(b1 % 16 * 4);
    assert s[2..][0] != '=' && s[3..] == "=";
  }

  lemma {:induction false} OneRoundTrip(b0: Byte)
    ensures Decode64(Group(b0, 0, 0)[..2] + "==") == Some([b0])
  {
    var s := Group(b0, 0, 0)[..2] + "==";
    Recombine(b0, 0, 0);
    LetterRoundTrip(b0 / 4);
    LetterRoundTrip(b0 % 4 * 16);
    assert s[2..] == "==";
  }

  lemma {:induction false} Base64RoundTrip(b: seq<Byte>)
    ensures Decode64(Encode64(b)) == Some(b)
  {
    if |b| >= 3 {
      Base64RoundTrip(b[3..]);
      LongRoundTrip(b, Encode64(b[3..]));
      LongEncode(b);
    } else if |b| == 2 {
      TwoRoundTrip(b[0], b[1]);
      assert b == [b[0], b[1]];
    } else if |b| == 1 {
      OneRoundTrip(b[0]);
      assert b == [b[0]];
    }
  }

  lemma {:induction false} LongRoundTrip(b: seq<Byte>, s: string)
    requires |b| >= 3 && Decode64(s) == Some(b[3..])
    ensures Decode64(Group(b[0], b[1], b[2]) + s) == Some(b)
  {
    GroupRoundTrip(b[0], b[1], b[2], s, b[3..]);
    assert b == [b[0], b[1], b[2]] + b[3..];
  }

  lemma {:induction false} LongEncode(b: seq<Byte>)
    requires |b| >= 3
    ensures Encode64(b) == Group(b[0], b[1], b[2]) + Encode64(b[3..])
  {
  }

  // ---- Padding ----

  /** `rstrip("=")`. */
  function Strip(s: string): string {
    if s != "" && s[|s| - 1] == '=' then Strip(s[..|s| - 1]) else s
  }

  function Pads(n: nat): string {
    if n == 0 then "" else "=" + Pads(n - 1)
  }

  /** Python's `-len(s) % 4` pad characters; Dafny's `%` agrees with it. */
  function Padded(s: string): string {
    s + Pads(-|s| % 4)
  }

  lemma {:induction false} StripKeepsGroup(g: string, s: string)
    requires g != "" && g[|g| - 1] != '='
    ensures Strip(g + s) == g + Strip(s)
  {
    var all := g + s;
    if s == "" {
      assert all == g;
    } else if s[|s| - 1] == '=' {
      var n := |s| - 1;
      StripKeepsGroup(g, s[..n]);
      assert all[..|all| - 1] == g + s[..n];
    }
  }

  lemma {:induction false} PadGroup(g: string, s: string)
    requires |g| == 4
    ensures Padded(g + s) == g + Padded(s)
  {
    assert -|g + s| % 4 == -|s| % 4;
  }

  lemma {:induction false} PadShort(s: string)
    requires 2 <= |s| <= 3
    ensures Padded(s) == s + if |s| == 2 then "==" else "="
  {
    assert -2 % 4 == 2 && -3 % 4 == 1;
    assert Pads(0) == "" && Pads(1) == "=" && Pads(2) == "==";
  }

  /** Letters, digits, `-` and `_` only. */
  predicate OfAlphabet(s: string) {
    forall i :: 0 <= i < |s| ==>
      'A' <= s[i] <= 'Z' || 'a' <= s[i] <= 'z' || '0' <= s[i] <= '9' || s[i] == '-' || s[i] == '_'
  }

  lemma {:induction false} GroupOfAlphabet(b0: Byte, b1: Byte, b2: Byte)
    ensures OfAlphabet(Group(b0, b1, b2))
  {
    var v0, v1, v2, v3 := GroupBits(b0, b1, b2);
    FourLetters(v0, v1, v2, v3);
  }

  lemma {:induction false} FourLetters(v0: nat, v1: nat, v2: nat, v3: nat)
    requires v0 < 64 && v1 < 64 && v2 < 64 && v3 < 64
    ensures OfAlphabet([Letter(v0), Letter(v1), Letter(v2), Letter(v3)])
  {
    LetterCode(v0);
    LetterCode(v1);
    LetterCode(v2);
    LetterCode(v3);
  }

  /** An issued cursor is made of the alphabet alone, so nothing of it needs escaping in a URL. */
  lemma {:induction false} CursorIsUrlSafe(b: seq<Byte>)
    ensures OfAlphabet(Strip(Encode64(b)))
  {
    if |b| >= 3 {
      GroupOfAlphabet(b[0], b[1], b[2]);
      LongEncode(b);
      StripKeepsGroup(Group(b[0], b[1], b[2]), Encode64(b[3..]));
      CursorIsUrlSafe(b[3..]);
    } else if |b| == 2 {
      GroupOfAlphabet(b[0], b[1], 0);
      StripKeepsGroup(Group(b[0], b[1], 0)[..3], "=");
      StripPads();
    } else if |b| == 1 {
      GroupOfAlphabet(b[0], 0, 0);
      StripKeepsGroup(Group(b[0], 0, 0)[..2], "==");
      StripPads();
    }
  }

  /** Restoring the pad characters undoes stripping them. */
  lemma {:induction false} PaddingRestored(b: seq<Byte>)
    ensures Padded(Strip(Encode64(b))) == Encode64(b)
  {
    var s := Encode64(b);
    if |b| >= 3 {
      LetterRoundTrip(b[2] % 64);
      assert s == s[..4] + Encode64(b[3..]);
      StripKeepsGroup(s[..4], Encode64(b[3..]));
      PadGroup(s[..4], Strip(Encode64(b[3..])));
      PaddingRestored(b[3..]);
    } else if |b| == 2 {
      LetterRoundTrip(b[1] % 16 * 4);
      assert s == s[..3] + "=";
      StripKeepsGroup(s[..3], "=");
      StripPads();
      PadShort(s[..3]);
    } else if |b| == 1 {
      LetterRoundTrip(b[0] % 4 * 16);
      assert s == s[..2] + "==";
      StripKeepsGroup(s[..2], "==");
      StripPads();
      PadShort(s[..2]);
    }
  }

  lemma {:induction false} StripPads()
    ensures Strip("=") == "" && Strip("==") == ""
  {
    assert "=="[..1] == "=" && "="[..0] == "";
  }

  // ---- Digits ----

  function Digit(d: nat): char
    requires d < 10
  {
    '0' + d as char
  }

  predicate IsDigit(c: char) {
    '0' <= c <= '9'
  }

  function Power10(w: nat): nat {
    if w == 0 then 1 else 10 * Power10(w - 1)
  }

  /** `n` in exactly `w` digits. */
  function Fixed(n: nat, w: nat): (s: string)
    ensures |s| == w
  {
    if w == 0 then "" else Fixed(n / 10, w - 1) + [Digit(n % 10)]
  }

  /** `n` without leading zeros. */
  function Natural(n: nat): string {
    if n < 10 then [Digit(n)] else Natural(n / 10) + [Digit(n % 10)]
  }

  predicate AllDigits(s: string) {
    forall i :: 0 <= i < |s| ==> IsDigit(s[i])
  }

  function Number(s: string): nat
    requires AllDigits(s)
  {
    if s == "" then 0 else Number(s[..|s| - 1]) * 10 + (s[|s| - 1] - '0') as nat
  }

  lemma {:induction false} SnocDigit(s: string, d: nat)
    requires AllDigits(s) && d < 10
    ensures AllDigits(s + [Digit(d)]) && Number(s + [Digit(d)]) == Number(s) * 10 + d
  {
    var t := s + [Digit(d)];
    assert t[..|t| - 1] == s;
  }

  lemma {:induction false} FixedRoundTrip(n: nat, w: nat)
    requires n < Power10(w)
    ensures AllDigits(Fixed(n, w)) && Number(Fixed(n, w)) == n
    decreases w
  {
    if w > 0 {
      FixedRoundTrip(n / 10, w - 1);
      SnocDigit(Fixed(n / 10, w - 1), n % 10);
    }
  }

  lemma {:induction false} NaturalRoundTrip(n: nat)
    ensures Natural(n) != "" && AllDigits(Natural(n)) && Number(Natural(n)) == n
  {
    if n >= 10 {
      NaturalRoundTrip(n / 10);
      SnocDigit(Natural(n / 10), n % 10);
    }
  }

  // ---- Timestamps ----

  /** A UTC timestamp in the proleptic calendar, to the microsecond. */
  datatype Instant = Instant(year: nat, month: nat, day: nat, hour: nat, minute: nat, second: nat, micro: nat)

  predicate InRange(t: Instant) {
    && t.year < 10000 && t.month < 100 && t.day < 100
    && t.hour < 100 && t.minute < 100 && t.second < 100 && t.micro < 1000000
  }

  /** `isoformat()`: microseconds only when there are any, offset `+00:00`. */
  function Iso(t: Instant): string {
    Fixed(t.year, 4) + ("-" + (Fixed(t.month, 2) + ("-" + (Fixed(t.day, 2) + ("T" + IsoTime(t))))))
  }

  function IsoTime(t: Instant): string {
    Fixed(t.hour, 2) + (":" + (Fixed(t.minute, 2) + (":" + (Fixed(t.second, 2) + IsoTail(t.micro)))))
  }

  function IsoTail(micro: nat): string {
    if micro == 0 then "+00:00" else "." + (Fixed(micro, 6) + "+00:00")
  }

  function TakeNumber(s: string, w: nat): Option<(nat, string)> {
    if |s| >= w && AllDigits(s[..w]) then Some((Number(s[..w]), s[w..])) else None
  }

  function Expect(s: string, lit: string): Option<string> {
    if |s| >= |lit| && s[..|lit|] == lit then Some(s[|lit|..]) else None
  }

  function ParseIso(s: string): Option<Instant> {
    var (year, s) :- TakeNumber(s, 4);
    var s :- Expect(s, "-");
    var (month, s) :- TakeNumber(s, 2);
    var s :- Expect(s, "-");
    var (day, s) :- TakeNumber(s, 2);
    var s :- Expect(s, "T");
    ParseTime(year, month, day, s)
  }

  function ParseTime(year: nat, month: nat, day: nat, s: string): Option<Instant> {
    var (hour, s) :- TakeNumber(s, 2);
    var s :- Expect(s, ":");
    var (minute, s) :- TakeNumber(s, 2);
    var s :- Expect(s, ":");
    var (second, s) :- TakeNumber(s, 2);
    var micro :- ParseTail(s);
    Some(Instant(year, month, day, hour, minute, second, micro))
  }

  function ParseTail(s: string): Option<nat> {
    if s == "+00:00" then Some(0)
    else
      var s :- Expect(s, ".");
      var (micro, s) :- TakeNumber(s, 6);
      if s == "+00:00" then Some(micro) else None
  }

  lemma {:induction false} TakeFixed(n: nat, w: nat, rest: string)
    requires n < Power10(w)
    ensures TakeNumber(Fixed(n, w) + rest, w) == Some((n, rest))
  {
    FixedRoundTrip(n, w);
    var s := Fixed(n, w) + rest;
    assert s[..w] == Fixed(n, w) && s[w..] == rest;
  }

  lemma {:induction false} ExpectLiteral(lit: string, rest: string)
    ensures Expect(lit + rest, lit) == Some(rest)
  {
    assert (lit + rest)[..|lit|] == lit && (lit + rest)[|lit|..] == rest;
  }

  lemma {:induction false} PowerValues()
    ensures Power10(2) == 100 && Power10(4) == 10000 && Power10(6) == 1000000
  {
    assert Power10(3) == 1000 && Power10(5) == 100000;
  }

  lemma {:induction false} TailRoundTrip(micro: nat)
    requires micro < 1000000
    ensures ParseTail(IsoTail(micro)) == Some(micro)
  {
    if micro != 0 {
      PowerValues();
      ExpectLiteral(".", Fixed(micro, 6) + "+00:00");
      TakeFixed(micro, 6, "+00:00");
      assert IsoTail(micro)[0] == '.';
    }
  }

  lemma {:induction false} TimeRoundTrip(t: Instant)
    requires InRange(t)
    ensures ParseTime(t.year, t.month, t.day, IsoTime(t)) == Some(t)
  {
    PowerValues();
    var tail := IsoTail(t.micro);
    var s4 := Fixed(t.second, 2) + tail;
    var s3 := ":" + s4;
    var s2 := Fixed(t.minute, 2) + s3;
    var s1 := ":" + s2;
    TakeFixed(t.hour, 2, s1);
    ExpectLiteral(":", s2);
    TakeFixed(t.minute, 2, s3);
    ExpectLiteral(":", s4);
    TakeFixed(t.second, 2, tail);
    TailRoundTrip(t.micro);
  }

  lemma {:induction false} IsoRoundTrip(t: Instant)
    requires InRange(t)
    ensures ParseIso(Iso(t)) == Some(t)
  {
    PowerValues();
    var time := IsoTime(t);
    var s5 := "T" + time;
    var s4 := Fixed(t.day, 2) + s5;
    var s3 := "-" + s4;
    var s2 := Fixed(t.month, 2) + s3;
    var s1 := "-" + s2;
    TakeFixed(t.year, 4, s1);
    ExpectLiteral("-", s2);
    TakeFixed(t.month, 2, s3);
    ExpectLiteral("-", s4);
    TakeFixed(t.day, 2, s5);
    ExpectLiteral("T", time);
    TimeRoundTrip(t);
  }

  /** The text is `YYYY-MM-DDT` and the time of day. */
  lemma {:induction false} IsoShape(t: Instant)
    ensures
      var s := Iso(t);
      && |s| == 11 + |IsoTime(t)| && s[11..] == IsoTime(t)
      && s[..4] == Fixed(t.year, 4) && s[4] == '-' && s[5..7] == Fixed(t.month, 2) && s[7] == '-'
      && s[8..10] == Fixed(t.day, 2) && s[10] == 'T'
  {
  }

  /** The time of day is `HH:MM:SS`, then `.ffffff` if there are microseconds, then `+00:00`. */
  lemma {:induction false} TimeShape(t: Instant)
    ensures
      var s := IsoTime(t);
      && |s| == (if t.micro == 0 then 14 else 21)
      && s[..2] == Fixed(t.hour, 2) && s[2] == ':' && s[3..5] == Fixed(t.minute, 2) && s[5] == ':'
      && s[6..8] == Fixed(t.second, 2) && s[|s| - 6..] == "+00:00"
      && (t.micro > 0 ==> s[8] == '.' && s[9..15] == Fixed(t.micro, 6))
  {
    var tail := IsoTail(t.micro);
    assert IsoTime(t)[8..] == tail && |tail| == (if t.micro == 0 then 6 else 13);
    assert t.micro > 0 ==> tail[1..7] == Fixed(t.micro, 6) && tail[7..] == "+00:00";
  }

  // ---- The payload ----

  function Integer(i: int): string {
    if i < 0 then "-" + Natural(-i) else Natural(i)
  }

  function ParseInteger(s: string): Option<int> {
    if s != "" && s[0] == '-' then
      if s[1..] != "" && AllDigits(s[1..]) then Some(-(Number(s[1..]) as int)) else None
    else if s != "" && AllDigits(s) then Some(Number(s)) else None
  }

  function Payload(at: Option<Instant>, id: int): string {
    if at.Some? then
      "{\"p\":\"" + (Iso(at.value) + ("\",\"i\":" + (Integer(id) + "}")))
    else
      "{\"p\":null,\"i\":" + (Integer(id) + "}")
  }

  /** The text up to the first quote, and what follows the quote. */
  function SplitAtQuote(s: string): Option<(string, string)> {
    if s == "" then None
    else if s[0] == '"' then Some(("", s[1..]))
    else
      var (text, rest) :- SplitAtQuote(s[1..]);
      Some(([s[0]] + text, rest))
  }

  function ParseId(s: string): Option<int> {
    if s != "" && s[|s| - 1] == '}' then ParseInteger(s[..|s| - 1]) else None
  }

  /** Reads the payloads that the encoder writes. */
  function ParsePayload(s: string): Option<(Option<Instant>, int)> {
    var nullAt := Expect(s, "{\"p\":null,\"i\":");
    if nullAt.Some? then
      var id :- ParseId(nullAt.value);
      Some((None, id))
    else
      var s :- Expect(s, "{\"p\":\"");
      var (text, s) :- SplitAtQuote(s);
      var s :- Expect(s, ",\"i\":");
      var id :- ParseId(s);
      if text == "" then Some((None, id))
      else
        var at :- ParseIso(text);
        Some((Some(at), id))
  }

  lemma {:induction false} IntegerRoundTrip(i: int)
    ensures ParseInteger(Integer(i)) == Some(i)
  {
    if i < 0 {
      NaturalRoundTrip(-i);
      assert Integer(i)[1..] == Natural(-i);
    } else {
      NaturalRoundTrip(i);
      assert IsDigit(Natural(i)[0]);
    }
  }

  lemma {:induction false} IdRoundTrip(i: int)
    ensures ParseId(Integer(i) + "}") == Some(i)
  {
    var s := Integer(i) + "}";
    assert s[..|s| - 1] == Integer(i);
    IntegerRoundTrip(i);
  }

  /** Printable ASCII other than the quote. */
  predicate Plain(s: string) {
    forall i :: 0 <= i < |s| ==> ' ' <= s[i] <= '~' && s[i] != '"'
  }

  lemma {:induction false} FixedPlain(n: nat, w: nat)
    ensures Plain(Fixed(n, w))
  {
    if w > 0 {
      FixedPlain(n / 10, w - 1);
    }
  }

  lemma {:induction false} NaturalPlain(n: nat)
    ensures Plain(Natural(n))
  {
    if n >= 10 {
      NaturalPlain(n / 10);
    }
  }

  lemma {:induction false} IsoPlain(t: Instant)
    ensures Plain(Iso(t)) && Iso(t) != ""
  {
    FixedPlain(t.year, 4);
    FixedPlain(t.month, 2);
    FixedPlain(t.day, 2);
    FixedPlain(t.hour, 2);
    FixedPlain(t.minute, 2);
    FixedPlain(t.second, 2);
    FixedPlain(t.micro, 6);
    assert Plain(IsoTail(t.micro));
    assert Plain(IsoTime(t));
  }

  lemma {:induction false} SplitPlain(text: string, rest: string)
    requires Plain(text)
    ensures SplitAtQuote(text + ("\"" + rest)) == Some((text, rest))
  {
    var s := text + ("\"" + rest);
    if text == "" {
      assert s[1..] == rest;
    } else {
      SplitPlain(text[1..], rest);
      assert s[1..] == text[1..] + ("\"" + rest);
      assert text == [text[0]] + text[1..];
    }
  }

  lemma {:induction false} NotNull(s: string)
    ensures Expect("{\"p\":\"" + s, "{\"p\":null,\"i\":").None?
  {
    var text, lit := "{\"p\":\"" + s, "{\"p\":null,\"i\":";
    if |text| >= |lit| {
      assert text[..|lit|][5] == '"' && lit[5] == 'n';
    }
  }

  lemma {:induction false} PayloadRoundTrip(at: Option<Instant>, id: int)
    requires at.Some? ==> InRange(at.value)
    ensures ParsePayload(Payload(at, id)) == Some((at, id))
  {
    IdRoundTrip(id);
    if at.None? {
      ExpectLiteral("{\"p\":null,\"i\":", Integer(id) + "}");
    } else {
      DatedRoundTrip(at.value, id);
    }
  }

  lemma {:induction false} DatedRoundTrip(t: Instant, id: int)
    requires InRange(t)
    ensures ParsePayload(Payload(Some(t), id)) == Some((Some(t), id))
  {
    var tail := Integer(id) + "}";
    var rest := ",\"i\":" + tail;
    var body := Iso(t) + ("\"" + rest);
    assert "\",\"i\":" + tail == "\"" + rest;
    assert Payload(Some(t), id) == "{\"p\":\"" + body;
    NotNull(body);
    ExpectLiteral("{\"p\":\"", body);
    IsoPlain(t);
    SplitPlain(Iso(t), rest);
    ExpectLiteral(",\"i\":", tail);
    IdRoundTrip(id);
    IsoRoundTrip(t);
  }

  // ---- The cursor ----

  predicate Ascii(s: string) {
    forall i :: 0 <= i < |s| ==> s[i] < 128 as char
  }

  /** `.encode()`, on ASCII text. */
  function Bytes(s: string): seq<Byte>
    requires Ascii(s)
  {
    seq(|s|, i requires 0 <= i < |s| => s[i] as nat)
  }

  function Text(b: seq<Byte>): string {
    seq(|b|, i requires 0 <= i < |b| => b[i] as char)
  }

  lemma {:induction false} JoinAscii(a: string, b: string)
    requires (Plain(a) || Ascii(a)) && Ascii(b)
    ensures Ascii(a + b)
  {
  }

  lemma {:induction false} TailAscii(id: int)
    ensures Ascii(Integer(id) + "}")
  {
    var digits := Natural(if id < 0 then -id else id);
    NaturalPlain(if id < 0 then -id else id);
    JoinAscii(digits, "}");
    JoinAscii("-", digits + "}");
    assert id < 0 ==> Integer(id) + "}" == "-" + (digits + "}");
  }

  lemma {:induction false} PayloadAscii(at: Option<Instant>, id: int)
    ensures Ascii(Payload(at, id))
  {
    var tail := Integer(id) + "}";
    TailAscii(id);
    if at.None? {
      JoinAscii("{\"p\":null,\"i\":", tail);
    } else {
      IsoPlain(at.value);
      JoinAscii("\",\"i\":", tail);
      JoinAscii(Iso(at.value), "\",\"i\":" + tail);
      JoinAscii("{\"p\":\"", Iso(at.value) + ("\",\"i\":" + tail));
    }
  }

  function Encode(at: Option<Instant>, id: int): string {
    assert Ascii(Payload(at, id)) by { PayloadAscii(at, id); }
    Strip(Encode64(Bytes(Payload(at, id))))
  }

  function Decode(cursor: string): Option<(Option<Instant>, int)> {
    var bytes :- Decode64(Padded(cursor));
    ParsePayload(Text(bytes))
  }

  /** Every cursor the encoder issues decodes to the position it was issued for. */
  lemma {:induction false} CursorRoundTrip(at: Option<Instant>, id: int)
    requires at.Some? ==> InRange(at.value)
    ensures Decode(Encode(at, id)) == Some((at, id))
  {
    PayloadAscii(at, id);
    var text := Payload(at, id);
    PaddingRestored(Bytes(text));
    Base64RoundTrip(Bytes(text));
    assert Text(Bytes(text)) == text;
    PayloadRoundTrip(at, id);
  }
}
