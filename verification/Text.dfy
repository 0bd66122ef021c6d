/**
 * Operations on strings that the parsers share: searching, splitting, joining,
 * trimming and decimal numerals.  Text is ASCII, so a character is a byte.
 */
module Text {
  import opened Outcomes

  /** The first position of `s` holding a character of `stops`. */
  function FirstOf(s: string, stops: set<char>): (r: Option<nat>)
    ensures r.Some? ==> r.value < |s| && s[r.value] in stops && forall k :: 0 <= k < r.value ==> s[k] !in stops
    ensures r.None? ==> forall k :: 0 <= k < |s| ==> s[k] !in stops
  {
    if s == "" then None
    else if s[0] in stops then Some(0)
    else
      match FirstOf(s[1..], stops)
      case None => None
      case Some(k) => Some(k + 1)
  }

  /** The last position of `s` holding a character of `stops`. */
  function LastOf(s: string, stops: set<char>): (r: Option<nat>)
    ensures r.Some? ==> r.value < |s| && s[r.value] in stops && forall k :: r.value < k < |s| ==> s[k] !in stops
    ensures r.None? ==> forall k :: 0 <= k < |s| ==> s[k] !in stops
  {
    if s == "" then None
    else if s[|s| - 1] in stops then Some(|s| - 1)
    else LastOf(s[..|s| - 1], stops)
  }

  /** `s` cut at the first `c`, when it holds one. */
  function SplitOnce(s: string, c: char): (r: Option<(string, string)>)
    ensures r.Some? ==> r.value.0 + [c] + r.value.1 == s && c !in r.value.0
    ensures r.None? <==> c !in s
  {
    match FirstOf(s, {c})
    case None => None
    case Some(k) => Some((s[..k], s[k + 1..]))
  }

  lemma SplitOnceAt(head: string, c: char, tail: string)
    requires c !in head
    ensures SplitOnce(head + [c] + tail, c) == Some((head, tail))
  {
    var s := head + [c] + tail;
    assert s[|head|] == c;
    var k := FirstOf(s, {c}).value;
    assert k == |head|;
    assert s[..k] == head && s[k + 1..] == tail;
  }

  lemma CutAt(s: string, k: nat)
    requires k < |s|
    ensures s == s[..k] + ([s[k]] + s[k + 1..])
  {
  }

  lemma CutBack(head: string, c: char, tail: string)
    ensures var s := head + ([c] + tail);
            |s| == |head| + 1 + |tail| && s[|head|] == c && s[..|head|] == head && s[|head| + 1..] == tail
  {
  }

  /** Every piece of `s` between occurrences of `c`; one piece when there are none. */
  function Split(s: string, c: char): (parts: seq<string>)
    ensures |parts| >= 1
    ensures forall p :: p in parts ==> c !in p
    ensures Join(parts, c) == s
  {
    match SplitOnce(s, c)
    case None => [s]
    case Some((head, tail)) =>
      assert |tail| < |s|;
      [head] + Split(tail, c)
  }

  /** The pieces of `parts` with one `c` between neighbours. */
  function Join(parts: seq<string>, c: char): string {
    if |parts| == 0 then ""
    else if |parts| == 1 then parts[0]
    else parts[0] + [c] + Join(parts[1..], c)
  }

  lemma {:induction false} SplitJoin(parts: seq<string>, c: char)
    requires |parts| >= 1 && forall p :: p in parts ==> c !in p
    ensures Split(Join(parts, c), c) == parts
  {
    if |parts| > 1 {
      SplitOnceAt(parts[0], c, Join(parts[1..], c));
      SplitJoin(parts[1..], c);
    }
  }

  predicate IsSpace(c: char) {
    c == ' ' || '\t' <= c <= '\r'
  }

  predicate IsDigit(c: char) {
    '0' <= c <= '9'
  }

  predicate AllDigits(s: string) {
    forall k :: 0 <= k < |s| ==> IsDigit(s[k])
  }

  lemma DigitsOnly(s: string, c: char)
    requires AllDigits(s) && !IsDigit(c)
    ensures c !in s
  {
  }

  predicate AllSpace(s: string) {
    forall k :: 0 <= k < |s| ==> IsSpace(s[k])
  }

  function TrimStart(s: string): (r: string)
    ensures r == "" || !IsSpace(r[0])
  {
    if s != "" && IsSpace(s[0]) then TrimStart(s[1..]) else s
  }

  function TrimEnd(s: string): (r: string)
    ensures r == "" || !IsSpace(r[|r| - 1])
  {
    if s != "" && IsSpace(s[|s| - 1]) then TrimEnd(s[..|s| - 1]) else s
  }

  function Trim(s: string): string {
    TrimEnd(TrimStart(s))
  }

  lemma {:induction false} TrimStartSkips(pad: string, s: string)
    requires AllSpace(pad)
    ensures TrimStart(pad + s) == TrimStart(s)
  {
    if pad == "" {
      assert pad + s == s;
    } else {
      assert (pad + s)[1..] == pad[1..] + s;
      TrimStartSkips(pad[1..], s);
    }
  }

  lemma {:induction false} TrimEndSkips(s: string, pad: string)
    requires AllSpace(pad)
    ensures TrimEnd(s + pad) == TrimEnd(s)
  {
    if pad == "" {
      assert s + pad == s;
    } else {
      assert (s + pad)[..|s + pad| - 1] == s + pad[..|pad| - 1];
      TrimEndSkips(s, pad[..|pad| - 1]);
    }
  }

  /** Padding a text that starts and ends with a non-space is undone by trimming. */
  lemma TrimPadded(before: string, s: string, after: string)
    requires AllSpace(before) && AllSpace(after)
    requires s != "" && !IsSpace(s[0]) && !IsSpace(s[|s| - 1])
    ensures Trim(before + s + after) == s
  {
    assert before + s + after == before + (s + after);
    TrimStartSkips(before, s + after);
    assert (s + after)[0] == s[0];
    TrimEndSkips(s, after);
  }

  lemma {:induction false} TrimStartIsPadding(s: string) returns (pad: string)
    ensures s == pad + TrimStart(s) && AllSpace(pad)
  {
    if s != "" && IsSpace(s[0]) {
      pad := TrimStartIsPadding(s[1..]);
      pad := [s[0]] + pad;
    } else {
      pad := "";
    }
  }

  lemma {:induction false} TrimEndIsPadding(s: string) returns (pad: string)
    ensures s == TrimEnd(s) + pad && AllSpace(pad)
    ensures TrimEnd(s) != "" ==> TrimEnd(s)[0] == s[0]
  {
    if s != "" && IsSpace(s[|s| - 1]) {
      pad := TrimEndIsPadding(s[..|s| - 1]);
      pad := pad + [s[|s| - 1]];
    } else {
      pad := "";
    }
  }

  /** What trimming removes is padding on both sides. */
  lemma TrimIsPadding(s: string) returns (before: string, after: string)
    ensures s == before + Trim(s) + after && AllSpace(before) && AllSpace(after)
    ensures Trim(s) != "" ==> !IsSpace(Trim(s)[0]) && !IsSpace(Trim(s)[|Trim(s)| - 1])
  {
    before := TrimStartIsPadding(s);
    after := TrimEndIsPadding(TrimStart(s));
  }

  /** The number a string of digits spells. */
  function Value(digits: string): nat
    requires AllDigits(digits)
  {
    if digits == "" then 0
    else Value(digits[..|digits| - 1]) * 10 + ((digits[|digits| - 1] - '0') as nat)
  }

  function Pow10(n: nat): (p: nat)
    ensures p > 0
  {
    if n == 0 then 1 else 10 * Pow10(n - 1)
  }

  lemma OneDigitMore(value: nat, power: nat, rest: nat, digit: nat)
    ensures (value * power + rest) * 10 + digit == value * (power * 10) + (rest * 10 + digit)
  {
  }

  lemma {:induction false} ValueOfConcat(a: string, b: string)
    requires AllDigits(a) && AllDigits(b)
    ensures AllDigits(a + b) && Value(a + b) == Value(a) * Pow10(|b|) + Value(b)
    ensures Value(b) < Pow10(|b|)
  {
    if b == "" {
      assert a + b == a;
    } else {
      var front := b[..|b| - 1];
      ValueOfConcat(a, front);
      assert (a + b)[..|a + b| - 1] == a + front;
      OneDigitMore(Value(a), Pow10(|front|), Value(front), (b[|b| - 1] - '0') as nat);
    }
  }

  function Digit(d: nat): (c: char)
    requires d < 10
    ensures IsDigit(c) && (c - '0') as nat == d
  {
    '0' + d as char
  }

  /** The decimal numeral of `n`, without leading zeros. */
  function Decimal(n: nat): (s: string)
    ensures s != "" && AllDigits(s) && Value(s) == n && (s[0] == '0' ==> s == "0")
  {
    if n < 10 then [Digit(n)] else Decimal(n / 10) + [Digit(n % 10)]
  }

  /** The numeral of `n` in exactly `width` digits. */
  function Padded(n: nat, width: nat): (s: string)
    requires n < Pow10(width)
    ensures |s| == width && AllDigits(s) && Value(s) == n
  {
    if width == 0 then ""
    else Padded(n / 10, width - 1) + [Digit(n % 10)]
  }
}
