/** Limiting and ordering the merged results (main.go: SubtitleSorter and the
    `Limit` / `sort.Sort` steps of `main`; the older revision's `Limit` step). */
module Ranking {
  import opened Common
  import opened Text

  /** `SubtitleSorter.Less`: ordered by language. It is a strict total order
      on languages: never both ways, never between equal languages, and one
      way or the other between different ones. */
  predicate Less(a: Subtitle, b: Subtitle): (r: bool)
    ensures r ==> !StrLess(b.language, a.language) && a.language != b.language
    ensures !r ==> a.language == b.language || StrLess(b.language, a.language)
  {
    StrLessAsymmetric(a.language, b.language);
    StrLessIrreflexive(a.language);
    StrLessTotal(a.language, b.language);
    StrLess(a.language, b.language)
  }

  /** `a` may come before `b` in a sorted list. */
  predicate InOrder(a: Subtitle, b: Subtitle) {
    !Less(b, a)
  }

  predicate SortedByLanguage(s: seq<Subtitle>) {
    forall i, j :: 0 <= i < j < |s| ==> InOrder(s[i], s[j])
  }

  lemma InOrderTransitive(a: Subtitle, b: Subtitle, c: Subtitle)
    requires InOrder(a, b) && InOrder(b, c)
    ensures InOrder(a, c)
  {
    StrLessTotal(a.language, b.language);
    StrLessTransitive(c.language, a.language, b.language);
  }

  lemma {:induction false} AdjacentChain(s: seq<Subtitle>, i: nat, j: nat)
    requires forall k :: 0 < k < |s| ==> InOrder(s[k - 1], s[k])
    requires i < j < |s|
    ensures InOrder(s[i], s[j])
    decreases j - i
  {
    if j > i + 1 {
      AdjacentChain(s, i, j - 1);
      InOrderTransitive(s[i], s[j - 1], s[j]);
    }
  }

  /** A list whose neighbours are in order is sorted. */
  lemma AdjacentSortedIsSorted(s: seq<Subtitle>)
    requires forall k :: 0 < k < |s| ==> InOrder(s[k - 1], s[k])
    ensures SortedByLanguage(s)
  {
    forall i, j | 0 <= i < j < |s|
      ensures InOrder(s[i], s[j])
    {
      AdjacentChain(s, i, j);
    }
  }

  /** `SubtitleSorter.Swap`. */
  method Swap(a: array<Subtitle>, i: int, j: int)
    requires 0 <= i < a.Length && 0 <= j < a.Length
    modifies a
    ensures a[..] == old(a[..])[i := old(a[j])][j := old(a[i])]
    ensures multiset(a[..]) == old(multiset(a[..]))
  {
    a[i], a[j] := a[j], a[i];
  }

  /** `sort.Sort(SubtitleSorter(a))`: the array ends up ordered by language and
      holds the same subtitles. `sort.Sort` is not stable, so nothing is
      promised about the relative order of subtitles with equal languages. */
  method Sort(a: array<Subtitle>)
    modifies a
    ensures SortedByLanguage(a[..])
    ensures multiset(a[..]) == old(multiset(a[..]))
  {
    var i := 1;
    while i < a.Length
      invariant a.Length == 0 || 1 <= i <= a.Length
      invariant forall k :: 0 < k < i && k < a.Length ==> InOrder(a[k - 1], a[k])
      invariant multiset(a[..]) == old(multiset(a[..]))
    {
      var j := i;
      while j > 0 && Less(a[j], a[j - 1])
        invariant 0 <= j <= i
        invariant forall k :: 0 < k <= i && k != j ==> InOrder(a[k - 1], a[k])
        invariant 0 < j < i ==> InOrder(a[j - 1], a[j + 1])
        invariant multiset(a[..]) == old(multiset(a[..]))
      {
        StrLessAsymmetric(a[j].language, a[j - 1].language);
        Swap(a, j - 1, j);
        j := j - 1;
      }
      i := i + 1;
    }
    AdjacentSortedIsSorted(a[..]);
  }

  /** The message of Go's run-time panic for a slice expression out of range. */
  const SliceOutOfRange := "slice bounds out of range"

  /** `subtitles[0:Limit]` as Go evaluates it on a slice of length `|subs|`
      whose backing array has room for `capacity` elements: a bound up to the
      capacity is accepted, and the elements past the length are zero values. */
  function SliceAsWritten(subs: seq<Subtitle>, capacity: nat, limit: int): (r: Result<seq<Subtitle>>)
    requires |subs| <= capacity
    ensures r.Ok? <==> limit == NoLimit || 0 <= limit <= capacity
    ensures r.Ok? && limit == NoLimit ==> r.value == subs
    ensures r.Ok? && limit != NoLimit ==> |r.value| == limit
    ensures r.Ok? && limit != NoLimit ==>
      forall i :: 0 <= i < limit ==> r.value[i] == if i < |subs| then subs[i] else ZeroSubtitle
  {
    if limit == NoLimit then Ok(subs)
    else if limit < 0 || limit > capacity then Err(SliceOutOfRange)
    else Ok((subs + seq(capacity - |subs|, _ => ZeroSubtitle))[..limit])
  }

  /** As written, a limit past the length but within the capacity pads the
      result with zero-valued subtitles, which have no URL and an empty
      language (so they are sorted to the front). */
  lemma SliceAsWrittenPads(s: Subtitle)
    ensures SliceAsWritten([s], 2, 2) == Ok([s, ZeroSubtitle])
    ensures ZeroSubtitle.url == "" && ZeroSubtitle.language == ""
  {
    assert ([s] + seq(1, _ => ZeroSubtitle))[..2] == [s, ZeroSubtitle];
  }

  /** The limit step as intended: the first `limit` subtitles, or all of them
      when the limit is 0 or exceeds their number; a negative limit is still the
      out-of-range panic. */
  function Truncate(subs: seq<Subtitle>, limit: int): (r: Result<seq<Subtitle>>)
    ensures r.Ok? <==> limit >= 0
    ensures r.Ok? ==> r.value <= subs
    ensures r.Ok? ==> |r.value| == if limit == NoLimit || limit >= |subs| then |subs| else limit
  {
    if limit == NoLimit then Ok(subs)
    else if limit < 0 then Err(SliceOutOfRange)
    else if limit <= |subs| then Ok(subs[..limit])
    else Ok(subs)
  }

  /** Within the length, the slice as written and the intended limit agree:
      the result is exactly the first `limit` subtitles. */
  lemma TruncateWithinLength(subs: seq<Subtitle>, capacity: nat, limit: int)
    requires |subs| <= capacity
    requires 0 < limit <= |subs|
    ensures Truncate(subs, limit) == Ok(subs[..limit])
    ensures SliceAsWritten(subs, capacity, limit) == Truncate(subs, limit)
  {
    var padded := subs + seq(capacity - |subs|, _ => ZeroSubtitle);
    assert padded[..limit] == subs[..limit];
  }

  /** The ranking step of `main`: the limit first, then the sort. */
  method LimitThenSort(subs: seq<Subtitle>, limit: int) returns (r: Result<seq<Subtitle>>)
    ensures r.Ok? <==> limit >= 0
    ensures r.Ok? ==> SortedByLanguage(r.value)
    ensures r.Ok? ==> multiset(r.value) == multiset(Truncate(subs, limit).value)
  {
    var cut := Truncate(subs, limit);
    if cut.Err? {
      return Err(cut.error);
    }
    var kept := cut.value;
    var a := new Subtitle[|kept|](i requires 0 <= i < |kept| => kept[i]);
    assert a[..] == kept;
    Sort(a);
    return Ok(a[..]);
  }

  /** The limit is applied before the sort, so it keeps the first subtitles
      found, not the first in language order. */
  lemma LimitAppliesBeforeSort(x: Subtitle, y: Subtitle, ranked: seq<Subtitle>)
    requires x.language == "pl" && y.language == "en"
    requires multiset(ranked) == multiset(Truncate([x, y], 1).value)
    ensures ranked == [x]
  {
    assert Truncate([x, y], 1).value == [x];
    assert |ranked| == |multiset(ranked)| == 1;
    assert ranked[0] in multiset(ranked);
  }

  function Languages(s: seq<Subtitle>): (ls: seq<string>)
    ensures |ls| == |s|
    ensures forall i :: 0 <= i < |s| ==> ls[i] == s[i].language
  {
    seq(|s|, i requires 0 <= i < |s| => s[i].language)
  }

  /** Removing one element from a list removes it from its multiset. */
  lemma RemoveAt<T>(t: seq<T>, k: nat)
    requires k < |t|
    ensures multiset(t[..k] + t[k + 1..]) == multiset(t) - multiset{t[k]}
  {
    assert t == t[..k] + [t[k]] + t[k + 1..];
    assert multiset(t) == multiset(t[..k]) + multiset{t[k]} + multiset(t[k + 1..]);
  }

  /** Lists with equal multisets and equal heads have tails with equal multisets. */
  lemma SameHeadTails<T>(a: seq<T>, b: seq<T>)
    requires |a| > 0 && |b| > 0 && a[0] == b[0] && multiset(a) == multiset(b)
    ensures multiset(a[1..]) == multiset(b[1..])
  {
    PermutationWithout(a, b, 0);
    assert b[..0] + b[1..] == b[1..];
  }

  /** Taking out the subtitle at `k` takes its language out of the languages. */
  lemma LanguagesRemoveAt(t: seq<Subtitle>, k: nat, rest: seq<Subtitle>)
    requires k < |t| && rest == t[..k] + t[k + 1..]
    ensures multiset(Languages(t)) == multiset(Languages(rest)) + multiset{t[k].language}
  {
    var lt := Languages(t);
    RemoveAt(lt, k);
    assert lt[..k] + lt[k + 1..] == Languages(rest);
    assert lt[k] in multiset(lt);
  }

  /** Taking the first element out of one list and an equal element out of a
      permutation of it leaves permutations of each other. */
  lemma PermutationWithout<T>(s: seq<T>, t: seq<T>, k: nat)
    requires multiset(s) == multiset(t) && |s| > 0
    requires k < |t| && t[k] == s[0]
    ensures multiset(s[1..]) == multiset(t[..k] + t[k + 1..])
  {
    RemoveAt(t, k);
    RemoveAt(s, 0);
    assert s[..0] + s[1..] == s[1..];
  }

  /** Permuting subtitles permutes their languages. */
  lemma {:induction false} LanguagesOfPermutation(s: seq<Subtitle>, t: seq<Subtitle>)
    requires multiset(s) == multiset(t)
    ensures multiset(Languages(s)) == multiset(Languages(t))
    decreases |s|
  {
    if |s| > 0 {
      assert s[0] in multiset(t);
      var k :| 0 <= k < |t| && t[k] == s[0];
      var rest := t[..k] + t[k + 1..];
      PermutationWithout(s, t, k);
      LanguagesOfPermutation(s[1..], rest);
      LanguagesRemoveAt(s, 0, s[1..]);
      LanguagesRemoveAt(t, k, rest);
    }
  }

  predicate SortedStrings(ls: seq<string>) {
    forall i, j :: 0 <= i < j < |ls| ==> !StrLess(ls[j], ls[i])
  }

  lemma SortedStringsTail(a: seq<string>)
    requires SortedStrings(a) && |a| > 0
    ensures SortedStrings(a[1..])
  {
    forall i, j | 0 <= i < j < |a| - 1
      ensures !StrLess(a[1..][j], a[1..][i])
    {
      assert a[1..][j] == a[j + 1] && a[1..][i] == a[i + 1];
    }
  }

  /** Two sorted lists of strings with the same elements start alike. */
  lemma SortedStringsSameHead(a: seq<string>, b: seq<string>)
    requires SortedStrings(a) && SortedStrings(b)
    requires multiset(a) == multiset(b) && |a| > 0
    ensures |b| > 0 && a[0] == b[0]
  {
    assert |b| == |multiset(b)| == |a|;
    assert a[0] in multiset(b) && b[0] in multiset(a);
    var ka :| 0 <= ka < |b| && b[ka] == a[0];
    var kb :| 0 <= kb < |a| && a[kb] == b[0];
    assert ka == 0 || !StrLess(a[0], b[0]);
    assert kb == 0 || !StrLess(b[0], a[0]);
    StrLessTotal(a[0], b[0]);
  }

  /** Two sorted lists of strings with the same elements are equal. */
  lemma {:induction false} SortedStringsUnique(a: seq<string>, b: seq<string>)
    requires SortedStrings(a) && SortedStrings(b)
    requires multiset(a) == multiset(b)
    ensures a == b
    decreases |a|
  {
    if |a| == 0 {
      assert |b| == |multiset(b)| == 0;
    } else {
      SortedStringsSameHead(a, b);
      SameHeadTails(a, b);
      SortedStringsTail(a);
      SortedStringsTail(b);
      SortedStringsUnique(a[1..], b[1..]);
      assert a == [a[0]] + a[1..] && b == [b[0]] + b[1..];
    }
  }

  /** Although `sort.Sort` is not stable, the language order of the ranked list
      is fully determined by the input and the limit. */
  lemma RankedLanguagesAreDetermined(subs: seq<Subtitle>, limit: int, r1: seq<Subtitle>, r2: seq<Subtitle>)
    requires limit >= 0
    requires SortedByLanguage(r1) && multiset(r1) == multiset(Truncate(subs, limit).value)
    requires SortedByLanguage(r2) && multiset(r2) == multiset(Truncate(subs, limit).value)
    ensures Languages(r1) == Languages(r2)
  {
    LanguagesOfPermutation(r1, r2);
    SortedStringsUnique(Languages(r1), Languages(r2));
  }
}
