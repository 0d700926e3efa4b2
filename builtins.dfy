/** The JavaScript library operations the application relies on, stated as Dafny
    functions: `Array.prototype.filter`, `String.prototype.includes` and
    `String.prototype.toLowerCase`. */
module Builtins {

  /** `r` can be obtained from `s` by deleting elements, keeping the order of the rest. */
  ghost predicate IsSubsequence<T>(r: seq<T>, s: seq<T>)
    decreases |s|
  {
    r == [] || (s != [] && (IsSubsequence(r, s[1..]) || (r[0] == s[0] && IsSubsequence(r[1..], s[1..]))))
  }

  /** `s.filter(keep)`: the elements of `s` for which `keep` holds, in their original order. */
  function Filter<T>(s: seq<T>, keep: T -> bool): (r: seq<T>)
    ensures |r| <= |s|
    ensures forall i :: 0 <= i < |r| ==> keep(r[i])
    decreases |s|
  {
    if s == [] then []
    else if keep(s[0]) then [s[0]] + Filter(s[1..], keep)
    else Filter(s[1..], keep)
  }

  /** The filtered sequence is an order-preserving subsequence of the input. */
  lemma {:induction false} FilterIsSubsequence<T>(s: seq<T>, keep: T -> bool)
    ensures IsSubsequence(Filter(s, keep), s)
    decreases |s|
  {
    if s != [] {
      FilterIsSubsequence(s[1..], keep);
      var rest := Filter(s[1..], keep);
      if keep(s[0]) {
        var r := [s[0]] + rest;
        assert r[0] == s[0] && r[1..] == rest;
      }
    }
  }

  /** Every occurrence of a passing element survives and every failing one is dropped:
      together with the subsequence property this pins the filtered sequence down. */
  lemma {:induction false} FilterCounts<T(!new)>(s: seq<T>, keep: T -> bool)
    ensures forall x :: multiset(Filter(s, keep))[x] == if keep(x) then multiset(s)[x] else 0
    decreases |s|
  {
    if s != [] {
      FilterCounts(s[1..], keep);
      assert s == [s[0]] + s[1..];
      assert multiset(s) == multiset([s[0]]) + multiset(s[1..]);
    }
  }

  /** Every element of `s` that passes is in the filtered sequence. */
  lemma FilterKeepsPassing<T(!new)>(s: seq<T>, keep: T -> bool, i: int)
    requires 0 <= i < |s| && keep(s[i])
    ensures s[i] in Filter(s, keep)
  {
    FilterCounts(s, keep);
    assert s[i] in multiset(s);
    assert multiset(Filter(s, keep))[s[i]] > 0;
  }

  /** Filtering distributes over concatenation. */
  lemma {:induction false} FilterAppend<T>(a: seq<T>, b: seq<T>, keep: T -> bool)
    ensures Filter(a + b, keep) == Filter(a, keep) + Filter(b, keep)
    decreases |a|
  {
    if a != [] {
      var ab := a + b;
      assert ab[0] == a[0] && ab[1..] == a[1..] + b;
      FilterAppend(a[1..], b, keep);
      var head := if keep(a[0]) then [a[0]] else [];
      assert Filter(ab, keep) == head + Filter(ab[1..], keep);
      assert Filter(a, keep) == head + Filter(a[1..], keep);
    } else {
      assert a + b == b;
    }
  }

  /** Filtering keeps a sequence whole exactly when every element passes. */
  lemma {:induction false} FilterAllKept<T>(s: seq<T>, keep: T -> bool)
    ensures Filter(s, keep) == s <==> forall i :: 0 <= i < |s| ==> keep(s[i])
    decreases |s|
  {
    if s != [] {
      FilterAllKept(s[1..], keep);
      if !keep(s[0]) {
        assert |Filter(s, keep)| <= |s[1..]| < |s|;
      } else {
        assert forall i :: 1 <= i < |s| ==> s[i] == s[1..][i - 1];
      }
    }
  }

  /** Filtering a sequence in which only `x` fails removes just `x`. */
  lemma FilterDropsOne<T>(before: seq<T>, x: T, after: seq<T>, keep: T -> bool)
    requires forall i :: 0 <= i < |before| ==> keep(before[i])
    requires !keep(x)
    requires forall i :: 0 <= i < |after| ==> keep(after[i])
    ensures Filter(before + [x] + after, keep) == before + after
  {
    FilterAllKept(before, keep);
    FilterAllKept(after, keep);
    var dropped := Filter([x], keep);
    assert dropped == [] by {
      assert [x][1..] == [];
    }
    var front := before + [x];
    FilterAppend(before, [x], keep);
    assert Filter(front, keep) == before;
    FilterAppend(front, after, keep);
  }

  /** Two predicates that agree on every element of `s` filter it the same way. */
  lemma {:induction false} FilterCongruent<T>(s: seq<T>, keep1: T -> bool, keep2: T -> bool)
    requires forall i :: 0 <= i < |s| ==> keep1(s[i]) == keep2(s[i])
    ensures Filter(s, keep1) == Filter(s, keep2)
    decreases |s|
  {
    if s != [] {
      assert forall i :: 1 <= i < |s| ==> s[i] == s[1..][i - 1];
      FilterCongruent(s[1..], keep1, keep2);
    }
  }

  /** `part` occurs in `text` starting at index `i`. */
  ghost predicate OccursAt(part: string, text: string, i: int)
  {
    0 <= i && i + |part| <= |text| && text[i..i + |part|] == part
  }

  /** An occurrence in the tail of `text` is an occurrence in `text` one place later. */
  lemma OccursInTail(part: string, text: string)
    requires |part| <= |text| && text != [] && text[..|part|] != part
    ensures (exists i :: OccursAt(part, text[1..], i)) <==> (exists j :: OccursAt(part, text, j))
  {
    forall i | OccursAt(part, text[1..], i)
      ensures OccursAt(part, text, i + 1)
    {
      assert text[1..][i..i + |part|] == text[i + 1..i + 1 + |part|];
    }
    forall j | OccursAt(part, text, j)
      ensures j >= 1 && OccursAt(part, text[1..], j - 1)
    {
      assert text[1..][j - 1..j - 1 + |part|] == text[j..j + |part|];
    }
  }

  /** `text.includes(part)`: true exactly when `part` occurs somewhere in `text`. */
  function Includes(text: string, part: string): (r: bool)
    ensures r <==> exists i :: OccursAt(part, text, i)
    decreases |text|
  {
    if |part| > |text| then
      assert forall i :: !OccursAt(part, text, i);
      false
    else if text[..|part|] == part then
      assert OccursAt(part, text, 0);
      true
    else
      OccursInTail(part, text);
      Includes(text[1..], part)
  }

  /** Every string includes the empty string. */
  lemma IncludesEmpty(text: string)
    ensures Includes(text, "")
  {
    assert OccursAt("", text, 0);
  }

  /** The capitals `toLowerCase` is modelled on: Latin A-Z and basic Cyrillic
      U+0410..U+042F together with U+0401. */
  predicate IsUpper(c: char)
  {
    'A' <= c <= 'Z' || '\U{0410}' <= c <= '\U{042F}' || c == '\U{0401}'
  }

  /** The lower-case partner of a capital: 32 code points up, except U+0401 whose
      partner is U+0451. */
  predicate IsLowerPartner(c: char, d: char)
  {
    if c == '\U{0401}' then d == '\U{0451}' else d as int == c as int + 32
  }

  /** `toLowerCase` on one character: a capital becomes its lower-case partner and
      every other character is its own lower case. */
  function LowerChar(c: char): (d: char)
    ensures IsUpper(c) ==> IsLowerPartner(c, d)
    ensures !IsUpper(c) ==> d == c
    ensures !IsUpper(d)
  {
    if 'A' <= c <= 'Z' then (c as int + 32) as char
    else if '\U{0410}' <= c <= '\U{042F}' then (c as int + 32) as char
    else if c == '\U{0401}' then '\U{0451}'
    else c
  }

  /** `s.toLowerCase()`: the same length, no capital left, every capital replaced by
      its lower-case partner and every other character kept. */
  function ToLowerCase(s: string): (r: string)
    ensures |r| == |s|
    ensures forall i :: 0 <= i < |r| ==> !IsUpper(r[i])
    ensures forall i :: 0 <= i < |s| && IsUpper(s[i]) ==> IsLowerPartner(s[i], r[i])
    ensures forall i :: 0 <= i < |s| && !IsUpper(s[i]) ==> r[i] == s[i]
  {
    seq(|s|, i requires 0 <= i < |s| => LowerChar(s[i]))
  }

  /** Lower-casing twice is lower-casing once. */
  lemma {:induction false} ToLowerCaseIdempotent(s: string)
    ensures ToLowerCase(ToLowerCase(s)) == ToLowerCase(s)
  {
    var r := ToLowerCase(s);
    forall i | 0 <= i < |r| ensures ToLowerCase(r)[i] == r[i] {
      assert !IsUpper(r[i]);
    }
  }
}
