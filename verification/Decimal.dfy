/** Object ids in base ten: fmt's %d on a uint64 and strconv.ParseUint(s, 10, 64). */
module Decimal {
  import opened Machine
  import opened Wrappers

  function DigitChar(d: int): char
    requires 0 <= d < 10
  {
    '0' + d as char
  }

  function Format(n: nat): (s: string)
    ensures s != "" && AllDigits(s)
    ensures Value(s) == n
  {
    if n < 10 then [DigitChar(n)] else Format(n / 10) + [DigitChar(n % 10)]
  }

  predicate AllDigits(s: string) {
    forall i :: 0 <= i < |s| ==> '0' <= s[i] <= '9'
  }

  function Value(s: string): nat
    requires AllDigits(s)
  {
    if s == "" then 0 else 10 * Value(s[..|s| - 1]) + (s[|s| - 1] - '0') as int
  }

  /** Syntax and range errors alike become None: every caller answers 400 to both. */
  function Parse(s: string): Option<UInt64> {
    if s != "" && AllDigits(s) && Value(s) < TWO_64 then Some(Value(s)) else None
  }

  lemma Last(front: nat, last: int)
    requires 0 <= last < 10
    ensures (10 * front + last) / 10 == front && (10 * front + last) % 10 == last
  {
  }

  lemma DigitExact(d: nat)
    requires d < 10
    ensures DigitChar(d) == "0123456789"[d]
  {
  }

  /** Base ten: one more digit at the end is ten times the number plus the digit, and no zero stands in front. */
  lemma FormatDigits(n: nat, d: nat)
    requires d < 10
    ensures Format(d) == ["0123456789"[d]]
    ensures n > 0 ==> Format(10 * n + d) == Format(n) + ["0123456789"[d]]
  {
    DigitExact(d);
    Last(n, d);
    hide DigitChar;
    hide AllDigits;
    hide Value;
  }

  /** A formatted number parses back to itself as long as it fits 64 bits. */
  lemma ParseFormat(n: nat)
    ensures Parse(Format(n)) == if n < TWO_64 then Some(n) else None
  {
  }

  lemma FormatInjective(n: nat, n': nat)
    ensures Format(n) == Format(n') <==> n == n'
  {
  }

  lemma {:induction false} ValuePadded(s: string, k: nat)
    requires AllDigits(s) && k <= |s| && forall i :: 0 <= i < k ==> s[i] == '0'
    ensures Value(s) == Value(s[k..])
    decreases |s|
  {
    if k < |s| {
      ValuePadded(s[..|s| - 1], k);
      assert s[..|s| - 1][k..] == s[k..][..|s[k..]| - 1];
    } else if s != "" {
      ValuePadded(s[..|s| - 1], k - 1);
      assert s[..|s| - 1][k - 1..] == "" && s[k..] == "";
    }
  }

  predicate Canonical(s: string) {
    AllDigits(s) && (|s| == 1 || (|s| > 1 && s[0] != '0'))
  }

  lemma {:induction false} CanonicalPositive(s: string)
    requires Canonical(s) && s[0] != '0'
    ensures Value(s) > 0
  {
    if |s| > 1 {
      CanonicalPositive(s[..|s| - 1]);
    }
  }

  lemma {:induction false} FormatCanonical(n: nat)
    ensures Canonical(Format(n))
    ensures n > 0 ==> Format(n)[0] != '0'
  {
    if n >= 10 {
      FormatCanonical(n / 10);
      assert Format(n)[0] == Format(n / 10)[0];
    }
  }

  lemma {:induction false} FormatCanonicalValue(s: string)
    requires Canonical(s)
    ensures Format(Value(s)) == s
  {
    if |s| > 1 {
      var front, last := s[..|s| - 1], (s[|s| - 1] - '0') as int;
      assert front[0] == s[0];
      CanonicalPositive(front);
      FormatCanonicalValue(front);
      Last(Value(front), last);
      assert s == front + [DigitChar(last)];
    }
  }

  /** Formatting undoes parsing exactly for texts without superfluous leading zeros. */
  lemma FormatValue(s: string)
    requires s != "" && AllDigits(s)
    ensures Format(Value(s)) == s <==> Canonical(s)
  {
    FormatCanonical(Value(s));
    if Canonical(s) {
      FormatCanonicalValue(s);
    }
  }

  /** Where a text stops being padded with zeros. */
  function Padding(s: string): (k: nat)
    requires s != ""
    ensures k < |s| && forall i :: 0 <= i < k ==> s[i] == '0'
    ensures k < |s| - 1 ==> s[k] != '0'
  {
    if |s| == 1 || s[0] != '0' then 0 else 1 + Padding(s[1..])
  }

  /** Exactly what parses, and to what: a number below 2^64 as it is shown, with any number of zeros in front. */
  lemma ParseExact(s: string, n: UInt64)
    ensures Parse(s) == Some(n) <==>
            exists k: nat :: k <= |s| && s[k..] == Format(n) && forall i :: 0 <= i < k ==> s[i] == '0'
  {
    hide Format;
    if Parse(s) == Some(n) {
      var k := Padding(s);
      ValuePadded(s, k);
      FormatValue(s[k..]);
      assert s[k..] == Format(n);
    }
    forall k: nat | k <= |s| && s[k..] == Format(n) && forall i :: 0 <= i < k ==> s[i] == '0'
      ensures Parse(s) == Some(n)
    {
      assert forall i :: k <= i < |s| ==> s[i] == s[k..][i - k];
      ValuePadded(s, k);
    }
  }

  /** "Parse then compare numbers" and "format then compare texts" agree on a text exactly when it is canonical. */
  lemma ParseIsFormat(s: string, n: UInt64)
    ensures Format(n) == s ==> Parse(s) == Some(n)
    ensures Parse(s) == Some(n) ==> (Format(n) == s <==> Canonical(s))
  {
    if Parse(s) == Some(n) {
      FormatValue(s);
    }
  }

  /** The first position whose id is written s, as the loops over keys and users compare. */
  function FindText(ids: seq<UInt64>, s: string): (i: Option<nat>)
    ensures i.Some? ==> i.value < |ids| && Format(ids[i.value]) == s
    ensures forall j :: 0 <= j < (if i.Some? then i.value else |ids|) ==> Format(ids[j]) != s
  {
    if ids == [] then None
    else if Format(ids[0]) == s then Some(0)
    else match FindText(ids[1..], s) case None => None case Some(k) => Some(k + 1)
  }

  lemma FirstText(ids: seq<UInt64>, id: string, i: nat)
    requires i < |ids| && Format(ids[i]) == id
    requires forall j :: 0 <= j < i ==> Format(ids[j]) != id
    ensures FindText(ids, id) == Some(i)
  {
  }

  /** The first position with a given numeric id. */
  function FindId(ids: seq<UInt64>, n: UInt64): (i: Option<nat>)
    ensures i.Some? ==> i.value < |ids| && ids[i.value] == n
    ensures forall j :: 0 <= j < (if i.Some? then i.value else |ids|) ==> ids[j] != n
  {
    if ids == [] then None
    else if ids[0] == n then Some(0)
    else match FindId(ids[1..], n) case None => None case Some(k) => Some(k + 1)
  }

  function FindParsed(ids: seq<UInt64>, s: string): Option<nat> {
    match Parse(s) case None => None case Some(n) => FindId(ids, n)
  }

  /** Searching by text equals searching by parsed number, unless the number is there and the text is not canonical. */
  lemma FindTextIsFindId(ids: seq<UInt64>, s: string)
    ensures FindText(ids, s) == FindParsed(ids, s) <==> FindParsed(ids, s).None? || Canonical(s)
  {
    var t, p := FindText(ids, s), FindParsed(ids, s);
    forall j | 0 <= j < |ids| { ParseIsFormat(s, ids[j]); }
    if p.Some? && Canonical(s) {
      assert Format(ids[p.value]) == s;
    }
  }
}
