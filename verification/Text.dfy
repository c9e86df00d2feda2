/** Decimal text, version strings and the small string functions the controller and agent use. */
module Text {
  import opened Seqs

  const INT64_LIMIT: int := 0x8000_0000_0000_0000

  predicate IsInt64(v: int) {
    -INT64_LIMIT <= v < INT64_LIMIT
  }

  /** atomic.AddInt64(&v, 1): two's-complement wrap-around at the top. */
  function NextInt64(v: int): (r: int)
    requires IsInt64(v)
    ensures IsInt64(r) && (r == v + 1 || r == v + 1 - 0x1_0000_0000_0000_0000)
  {
    if v == INT64_LIMIT - 1 then -INT64_LIMIT else v + 1
  }

  predicate IsDigit(c: char) {
    '0' <= c <= '9'
  }

  predicate AllDigits(s: string) {
    forall i :: 0 <= i < |s| ==> IsDigit(s[i])
  }

  function DigitChar(d: nat): char
    requires d < 10
  {
    (('0' as int) + d) as char
  }

  function DigitValue(c: char): nat
    requires IsDigit(c)
  {
    (c as int) - ('0' as int)
  }

  /** Decimal text of a natural number. */
  function Dec(v: nat): string {
    if v < 10 then [DigitChar(v)] else Dec(v / 10) + [DigitChar(v % 10)]
  }

  function Value(s: string): nat
    requires AllDigits(s)
  {
    if s == [] then 0 else Value(Init(s)) * 10 + DigitValue(Last(s))
  }

  lemma {:induction false} ValueOfDec(v: nat)
    ensures |Dec(v)| > 0 && AllDigits(Dec(v)) && Value(Dec(v)) == v
  {
    if v >= 10 {
      ValueOfDec(v / 10);
      assert Init(Dec(v)) == Dec(v / 10);
    } else {
      assert Init(Dec(v)) == [];
    }
  }

  lemma DecInjective(a: nat, b: nat)
    requires Dec(a) == Dec(b)
    ensures a == b
  {
    ValueOfDec(a);
    ValueOfDec(b);
  }

  function Pow10(n: nat): nat {
    if n == 0 then 1 else 10 * Pow10(n - 1)
  }

  lemma Pow10Of19()
    ensures Pow10(19) == 10_000_000_000_000_000_000
  {
    assert Pow10(5) == 100_000;
    assert Pow10(10) == 10_000_000_000;
    assert Pow10(15) == 1_000_000_000_000_000;
  }

  /** The digits of `w` still to be written; none for 0. */
  function Pending(w: nat): string {
    if w == 0 then "" else Pending(w / 10) + [DigitChar(w % 10)]
  }

  lemma {:induction false} PendingIsDec(w: nat)
    requires w > 0
    ensures Pending(w) == Dec(w)
  {
    if w >= 10 {
      PendingIsDec(w / 10);
    } else {
      assert Pending(w / 10) == "";
    }
  }

  lemma PendingStep(w: nat, n: nat, done: string)
    requires 0 < w < Pow10(n)
    ensures Pending(w) + done == Pending(w / 10) + ([DigitChar(w % 10)] + done)
    ensures n > 0 && w / 10 < Pow10(n - 1)
  {
  }

  /** The digit loop of itoa: fills a 20-byte buffer from the right and never runs off it. */
  method WriteDigits(v: nat) returns (s: string)
    requires 0 < v < INT64_LIMIT
    ensures s == Dec(v)
  {
    var buf := new char[20](_ => '0');
    var i, w: nat := buf.Length, v;
    ghost var done := "";
    Pow10Of19();
    while w > 0
      invariant 0 < i <= 20 && w < Pow10(i - 1)
      invariant Pending(v) == Pending(w) + done
      invariant buf[i..] == done
    {
      PendingStep(w, i - 1, done);
      i := i - 1;
      buf[i] := DigitChar(w % 10);
      done := [DigitChar(w % 10)] + done;
      w := w / 10;
    }
    PendingIsDec(v);
    assert Pending(0) + done == done;
    s := buf[i..];
  }

  /** itoa. For a negative number the loop does not run and the text is empty. */
  method Itoa(v: int) returns (s: string)
    requires IsInt64(v)
    ensures s == if v >= 0 then Dec(v) else ""
  {
    if v == 0 {
      return "0";
    }
    if v > 0 {
      s := WriteDigits(v);
    } else {
      s := "";
    }
  }

  predicate HasPrefix(s: string, p: string) {
    p <= s
  }

  /** strconv.ParseInt(s, 10, 64); None stands for an error. */
  function ParseInt64(s: string): Option<int> {
    var signed := s != [] && (s[0] == '+' || s[0] == '-');
    var digits := if signed then s[1..] else s;
    if digits == [] || !AllDigits(digits) then None
    else
      var v: int := if signed && s[0] == '-' then 0 - (Value(digits) as int) else Value(digits);
      if IsInt64(v) then Some(v) else None
  }

  lemma ParseInt64OfDec(v: nat)
    requires v < INT64_LIMIT
    ensures ParseInt64(Dec(v)) == Some(v)
  {
    ValueOfDec(v);
    assert IsDigit(Dec(v)[0]);
  }

  /** Digits with an optional sign, in the 64-bit range; the most negative number has no positive twin. */
  lemma ParseInt64Cases(d: string)
    requires d != "" && AllDigits(d)
    ensures ParseInt64(d) == ParseInt64("+" + d)
    ensures ParseInt64(d) == if Value(d) <= 0x7fff_ffff_ffff_ffff then Some(Value(d)) else None
    ensures ParseInt64("-" + d) ==
              if Value(d) <= 0x8000_0000_0000_0000 then Some(0 - (Value(d) as int)) else None
  {
    assert ("+" + d)[1..] == d && ("-" + d)[1..] == d;
    assert IsDigit(d[0]);
  }

  /** Nothing else is a number: not the empty text, not a sign alone, not a text with another character in it. */
  lemma ParseInt64Refuses(s: string, i: nat)
    requires s in {"", "+", "-"} || (i < |s| && !IsDigit(s[i]) && (i > 0 || s[0] !in "+-"))
    ensures ParseInt64(s) == None
  {
    if s != "" {
      assert "+-"[0] == '+' && "+-"[1] == '-';
      var signed := s[0] == '+' || s[0] == '-';
      if signed && 0 < i < |s| {
        assert s[1..][i - 1] == s[i];
      }
    }
  }

  const DYNAMIC_V := "dynamic-v"

  /** parseNumericVersion: 0 for anything that is not `dynamic-v` and a 64-bit number. */
  function ParseNumericVersion(cv: string): int {
    if HasPrefix(cv, DYNAMIC_V) then
      match ParseInt64(cv[|DYNAMIC_V|..])
      case Some(n) => n
      case None => 0
    else 0
  }

  /** The agent reads back every version number the controller can write. */
  lemma VersionTextRoundTrip(v: nat)
    requires v < INT64_LIMIT
    ensures ParseNumericVersion(DYNAMIC_V + Dec(v)) == v
  {
    ParseInt64OfDec(v);
    assert (DYNAMIC_V + Dec(v))[|DYNAMIC_V|..] == Dec(v);
  }

  /** Any other text counts as version 0. */
  lemma OtherVersionTexts(cv: string)
    requires !HasPrefix(cv, "dynamic-v") || ParseInt64(cv[9..]) == None
    ensures ParseNumericVersion(cv) == 0
  {
  }

  /** strings.Index for one character; -1 when it is absent. */
  function IndexOf(s: string, c: char): (r: int)
    ensures -1 <= r < |s|
    ensures r >= 0 ==> s[r] == c && c !in s[..r]
    ensures r == -1 ==> c !in s
  {
    if s == [] then -1
    else if s[0] == c then 0
    else
      var r := IndexOf(s[1..], c);
      if r < 0 then -1
      else
        assert s[..r + 1] == [s[0]] + s[1..][..r];
        r + 1
  }

  /** ipWithoutMask and stripMask: the text before the first '/', unless that text is empty. */
  function StripMask(cidr: string): (r: string)
    ensures r == "" <==> cidr == ""
    ensures r <= cidr
  {
    var idx := IndexOf(cidr, '/');
    if idx > 0 then cidr[..idx] else cidr
  }

  lemma {:induction false} IndexOfFirst(a: string, c: char, tail: string)
    requires c !in a
    ensures IndexOf(a + [c] + tail, c) == |a|
  {
    if a != [] {
      assert (a + [c] + tail)[1..] == a[1..] + [c] + tail;
      IndexOfFirst(a[1..], c, tail);
    }
  }

  lemma StripMaskOf(ip: string, mask: string)
    requires ip != "" && '/' !in ip
    ensures StripMask(ip + "/" + mask) == ip
  {
    IndexOfFirst(ip, '/', mask);
    assert (ip + "/" + mask)[..|ip|] == ip;
  }

  /** A text without a mask, or with nothing before its first '/', stays as it is. */
  lemma StripMaskKeeps(s: string)
    requires '/' !in s || s[0] == '/'
    ensures StripMask(s) == s
  {
  }

  /** What is cut off is the first '/' and all that follows, if something precedes it. */
  lemma StripMaskCuts(s: string)
    requires '/' in s && s[0] != '/'
    ensures StripMask(s) != "" && '/' !in StripMask(s)
    ensures StripMask(s) + "/" <= s
  {
    var idx := IndexOf(s, '/');
    assert s[..idx] + "/" == s[..idx + 1];
  }

  function ToLowerChar(c: char): char {
    if 'A' <= c <= 'Z' then ((c as int) + 32) as char else c
  }

  function ToLower(s: string): string {
    seq(|s|, i requires 0 <= i < |s| => ToLowerChar(s[i]))
  }

  /** The 26 letters go to their small forms, everything else stays. */
  lemma ToLowerFacts(s: string, i: nat)
    requires i < |s|
    ensures |ToLower(s)| == |s|
    ensures s[i] in "ABCDEFGHIJKLMNOPQRSTUVWXYZ" ==>
              exists k :: 0 <= k < 26 && s[i] == "ABCDEFGHIJKLMNOPQRSTUVWXYZ"[k]
                          && ToLower(s)[i] == "abcdefghijklmnopqrstuvwxyz"[k]
    ensures s[i] !in "ABCDEFGHIJKLMNOPQRSTUVWXYZ" ==> ToLower(s)[i] == s[i]
  {
    var upper, lower := "ABCDEFGHIJKLMNOPQRSTUVWXYZ", "abcdefghijklmnopqrstuvwxyz";
    assert forall k :: 0 <= k < 26 ==> upper[k] as int == 65 + k && lower[k] as int == 97 + k;
    if 'A' <= s[i] <= 'Z' {
      var k := s[i] as int - 65;
      assert upper[k] == s[i] && lower[k] == ToLowerChar(s[i]);
    }
  }

  function DigitRun(s: string): (n: nat)
    ensures n <= |s|
    ensures AllDigits(s[..n])
    ensures n < |s| ==> !IsDigit(s[n])
  {
    if s == [] || !IsDigit(s[0]) then 0
    else
      var n := DigitRun(s[1..]);
      assert forall i :: 0 < i < n + 1 ==> s[i] == s[1..][i - 1];
      n + 1
  }

  lemma {:induction false} DigitRunOf(a: string, tail: string)
    requires AllDigits(a)
    requires tail == [] || !IsDigit(tail[0])
    ensures DigitRun(a + tail) == |a|
  {
    if a == [] {
      assert a + tail == tail;
    } else {
      assert (a + tail)[1..] == a[1..] + tail;
      DigitRunOf(a[1..], tail);
    }
  }

  const OVERLAY_PREFIX := "10.10."

  function SkipBlanks(s: string): string {
    if s != [] && (s[0] == ' ' || s[0] == '\t') then SkipBlanks(s[1..]) else s
  }

  /** The `%d.` part of a scan: an optionally signed number that a dot follows. */
  function ScanNumberDot(s: string): Option<int> {
    var sign := if s != [] && (s[0] == '+' || s[0] == '-') then 1 else 0;
    var n := DigitRun(s[sign..]);
    if n == 0 || !(sign + n < |s| && s[sign + n] == '.') then None
    else ParseInt64(s[..sign + n])
  }

  lemma ScanNumberDotOfDec(i: nat, tail: string)
    requires i < INT64_LIMIT
    ensures ScanNumberDot(Dec(i) + ("." + tail)) == Some(i)
  {
    var s := Dec(i) + ("." + tail);
    ValueOfDec(i);
    assert IsDigit(s[0]) && s[0..] == s;
    DigitRunOf(Dec(i), "." + tail);
    assert s[..|Dec(i)|] == Dec(i);
    assert s[|Dec(i)|] == '.';
    ParseInt64OfDec(i);
  }

  /** A sign belongs to the number; without a digit, or without the dot after the digits, there is none. */
  lemma ScanNumberDotSigned(d: string, tail: string)
    requires d != "" && AllDigits(d)
    ensures ScanNumberDot("-" + d + ("." + tail)) == ParseInt64("-" + d)
  {
    var s := "-" + d + ("." + tail);
    assert s[1..] == d + ("." + tail);
    DigitRunOf(d, "." + tail);
    assert s[..1 + |d|] == "-" + d;
    assert s[1 + |d|] == '.';
  }

  /** fmt.Sscanf(ip, "10.10.%d.", &third); None stands for an error. */
  function ScanThird(ip: string): Option<int> {
    if HasPrefix(ip, OVERLAY_PREFIX) then ScanNumberDot(SkipBlanks(ip[|OVERLAY_PREFIX|..])) else None
  }

  lemma ScanThirdOfDec(i: nat, tail: string)
    requires i < INT64_LIMIT
    ensures ScanThird(OVERLAY_PREFIX + Dec(i) + "." + tail) == Some(i)
  {
    var s := OVERLAY_PREFIX + Dec(i) + "." + tail;
    var rest := Dec(i) + ("." + tail);
    assert s[|OVERLAY_PREFIX|..] == rest;
    ValueOfDec(i);
    assert IsDigit(rest[0]);
    assert SkipBlanks(rest) == rest;
    ScanNumberDotOfDec(i, tail);
  }
}
