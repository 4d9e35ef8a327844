/** The parts of Go's strings package the handlers rely on. */
module Text {
  import opened Wrappers

  /** strings.Index for a one-character separator. */
  function Index(s: string, sep: char): (i: Option<nat>)
    ensures i.None? <==> sep !in s
    ensures i.Some? ==> i.value < |s| && s[i.value] == sep && sep !in s[..i.value]
  {
    if s == "" then None
    else if s[0] == sep then Some(0)
    else match Index(s[1..], sep)
      case None => None
      case Some(k) =>
        assert s[..k + 1] == [s[0]] + s[1..][..k];
        Some(k + 1)
  }

  function Join(parts: seq<string>, sep: char): string
    requires parts != []
  {
    if |parts| == 1 then parts[0] else parts[0] + [sep] + Join(parts[1..], sep)
  }

  /** What cutting a text n - 1 times or fewer at sep leaves: only the n-th part may still hold sep. */
  predicate Cut(parts: seq<string>, sep: char, n: nat) {
    && 1 <= |parts| <= n
    && (forall i :: 0 <= i < |parts| && i + 1 < n ==> sep !in parts[i])
  }

  /** strings.SplitN(s, sep, n) for n >= 1: at most n parts, the last one unsplit. */
  function SplitN(s: string, sep: char, n: nat): (parts: seq<string>)
    requires n >= 1
    ensures Cut(parts, sep, n)
    ensures Join(parts, sep) == s
    decreases n
  {
    match Index(s, sep)
    case None => [s]
    case Some(k) =>
      if n == 1 then [s]
      else
        var rest := SplitN(s[k + 1..], sep, n - 1);
        assert s == s[..k] + [sep] + s[k + 1..];
        assert ([s[..k]] + rest)[1..] == rest;
        [s[..k]] + rest
  }

  /** Splitting undoes joining when only the n-th part may hold the separator. */
  lemma {:induction false} SplitNJoin(parts: seq<string>, sep: char, n: nat)
    requires Cut(parts, sep, n)
    ensures SplitN(Join(parts, sep), sep, n) == parts
    decreases n
  {
    if |parts| == 1 {
      assert n > 1 ==> sep !in parts[0];
    } else {
      var rest := parts[1..];
      forall i | 0 <= i < |rest| && i + 1 < n - 1 ensures sep !in rest[i] {
        assert rest[i] == parts[i + 1];
      }
      SplitNJoin(rest, sep, n - 1);
      assert sep !in parts[0];
      SplitFirst(parts[0], sep, Join(rest, sep), n);
    }
  }

  lemma SplitFirst(head: string, sep: char, rest: string, n: nat)
    requires sep !in head && n >= 2
    ensures SplitN(head + [sep] + rest, sep, n) == [head] + SplitN(rest, sep, n - 1)
  {
    IndexOf(head, sep, rest);
  }

  lemma IndexOf(head: string, sep: char, rest: string)
    requires sep !in head
    ensures Index(head + [sep] + rest, sep) == Some(|head|)
    ensures (head + [sep] + rest)[..|head|] == head && (head + [sep] + rest)[|head| + 1..] == rest
  {
    var s := head + [sep] + rest;
    assert s[|head|] == sep;
    FirstIs(s, sep, |head|);
  }

  lemma FirstIs(s: string, sep: char, i: nat)
    requires i < |s| && s[i] == sep && sep !in s[..i]
    ensures Index(s, sep) == Some(i)
  {
  }

  /** unicode.IsSpace. */
  predicate IsSpace(c: char) {
    || '\t' <= c <= '\r'
    || c in {' ', '\U{0085}', '\U{00A0}', '\U{1680}', '\U{2028}', '\U{2029}', '\U{202f}', '\U{205f}', '\U{3000}'}
    || '\U{2000}' <= c <= '\U{200a}'
  }

  function TrimLeft(s: string): (t: string)
    ensures t != "" ==> !IsSpace(t[0])
    ensures |t| <= |s|
  {
    if s != "" && IsSpace(s[0]) then TrimLeft(s[1..]) else s
  }

  function TrimRight(s: string): (t: string)
    ensures t != "" ==> !IsSpace(t[|t| - 1])
    ensures t <= s
  {
    if s != "" && IsSpace(s[|s| - 1]) then TrimRight(s[..|s| - 1]) else s
  }

  function TrimSpace(s: string): string {
    TrimRight(TrimLeft(s))
  }

  /** A text has no surrounding space exactly when trimming leaves it alone. */
  predicate Tight(s: string) {
    s != "" ==> !IsSpace(s[0]) && !IsSpace(s[|s| - 1])
  }

  lemma TrimSpaceTight(s: string)
    ensures Tight(TrimSpace(s))
    ensures TrimSpace(s) == s <==> Tight(s)
  {
  }

  /** The characters of the Unicode property White_Space. */
  const WHITE_SPACE: string :=
    "\t\n\U{000B}\U{000C}\r \U{0085}\U{00A0}\U{1680}"
    + "\U{2000}\U{2001}\U{2002}\U{2003}\U{2004}\U{2005}\U{2006}\U{2007}\U{2008}\U{2009}\U{200A}"
    + "\U{2028}\U{2029}\U{202F}\U{205F}\U{3000}"

  predicate White(c: char) {
    c in WHITE_SPACE
  }

  lemma IsSpaceExact(c: char)
    ensures IsSpace(c) <==> White(c)
  {
  }

  predicate Blank(s: string) {
    forall i :: 0 <= i < |s| ==> White(s[i])
  }

  /** Trimming takes white space off both ends, however much, and nothing else. */
  lemma TrimSpaceExact(before: string, t: string, after: string)
    requires Blank(before) && Blank(after) && (t != "" ==> !White(t[0]) && !White(t[|t| - 1]))
    ensures TrimSpace(before + t + after) == t
  {
    hide White;
    hide IsSpace;
    assert before + t + after == before + (t + after);
    if t == "" {
      BlankJoined(before, after);
      TrimLeftBlank(before + after, "");
      assert before + t + after == before + after + "";
    } else {
      IsSpaceExact(t[0]);
      IsSpaceExact(t[|t| - 1]);
      TrimLeftBlank(before, t + after);
      TrimRightBlank(t, after);
    }
  }

  /** Every text is of that form. */
  lemma TrimSpaceCovers(s: string) returns (before: string, after: string)
    ensures Blank(before) && Blank(after) && s == before + TrimSpace(s) + after
    ensures var t := TrimSpace(s); t != "" ==> !White(t[0]) && !White(t[|t| - 1])
  {
    hide White;
    hide IsSpace;
    var l, t := TrimLeft(s), TrimSpace(s);
    before := CutLeft(s);
    after := CutRight(l);
    TrimSpaceTight(s);
    if t != "" {
      IsSpaceExact(t[0]);
      IsSpaceExact(t[|t| - 1]);
    }
    hide *;
    assert s == before + l && l == t + after && before + (t + after) == before + t + after;
  }

  lemma BlankJoined(a: string, b: string)
    requires Blank(a) && Blank(b)
    ensures Blank(a + b)
  {
    hide White;
  }

  lemma {:induction false} TrimLeftBlank(before: string, s: string)
    requires Blank(before) && (s != "" ==> !IsSpace(s[0]))
    ensures TrimLeft(before + s) == s
  {
    hide White;
    hide IsSpace;
    if before == "" {
      assert before + s == s;
    } else {
      IsSpaceExact(before[0]);
      TrimLeftBlank(before[1..], s);
      assert (before + s)[1..] == before[1..] + s;
    }
  }

  lemma {:induction false} TrimRightBlank(s: string, after: string)
    requires Blank(after) && (s != "" ==> !IsSpace(s[|s| - 1]))
    ensures TrimRight(s + after) == s
  {
    hide White;
    hide IsSpace;
    if after == "" {
      assert s + after == s;
    } else {
      var n := |after| - 1;
      IsSpaceExact(after[n]);
      TrimRightBlank(s, after[..n]);
      assert (s + after)[..|s| + n] == s + after[..n];
    }
  }

  lemma {:induction false} CutLeft(s: string) returns (before: string)
    ensures Blank(before) && s == before + TrimLeft(s)
  {
    hide White;
    hide IsSpace;
    before := "";
    if s != "" && IsSpace(s[0]) {
      IsSpaceExact(s[0]);
      var rest := CutLeft(s[1..]);
      before := [s[0]] + rest;
      assert s == [s[0]] + s[1..];
    }
  }

  lemma {:induction false} CutRight(s: string) returns (after: string)
    ensures Blank(after) && s == TrimRight(s) + after
  {
    hide White;
    hide IsSpace;
    after := "";
    if s != "" && IsSpace(s[|s| - 1]) {
      var m := |s| - 1;
      IsSpaceExact(s[m]);
      var rest := CutRight(s[..m]);
      after := rest + [s[m]];
      assert s == s[..m] + [s[m]];
    }
  }

  function Lower(c: char): char {
    if 'A' <= c <= 'Z' then c - 'A' + 'a' else c
  }

  /** strings.EqualFold against an ASCII word none of whose letters is k or s,
      the only two that Unicode folding pairs with a character outside ASCII. */
  predicate EqualFold(s: string, word: string) {
    |s| == |word| && forall i :: 0 <= i < |s| ==> Lower(s[i]) == Lower(word[i])
  }

  /** Exactly the spellings of "bearer" in capital and small letters. */
  lemma EqualFoldBearer(s: string)
    ensures EqualFold(s, "bearer") <==> IsBearer(s)
  {
    hide Lower;
    forall i | 0 <= i < 6 && |s| == 6
      ensures Lower(s[i]) == Lower("bearer"[i]) <==> s[i] == "bearer"[i] || s[i] == "BEARER"[i]
    {
      LowerPairs(s[i], "bearer"[i], "BEARER"[i]);
    }
  }

  predicate IsBearer(s: string) {
    |s| == 6 && forall i :: 0 <= i < 6 ==> s[i] == "bearer"[i] || s[i] == "BEARER"[i]
  }

  lemma LowerPairs(c: char, small: char, capital: char)
    requires 'a' <= small <= 'z' && capital as int == small as int - 32
    ensures Lower(c) == Lower(small) <==> c == small || c == capital
  {
  }
}
