/** Applying text replacements from the end of a source text to its start. */
module Splice {
  /** The span start..end of the source becomes `text`. */
  datatype Replacement = Replacement(start: nat, end: nat, text: string)

  /** Replacements come from syntax nodes: non-empty spans within the source. */
  predicate InText(r: Replacement, n: nat) {
    r.start < r.end <= n
  }

  predicate Apart(a: Replacement, b: Replacement) {
    a.end <= b.start || b.end <= a.start
  }

  predicate Disjoint(rs: seq<Replacement>, n: nat) {
    && (forall i :: 0 <= i < |rs| ==> InText(rs[i], n))
    && forall i, j :: 0 <= i < j < |rs| ==> Apart(rs[i], rs[j])
  }

  // ---- The simultaneous splice: every position of the source says what it contributes ----

  ghost predicate Starts(rs: set<Replacement>, i: nat) {
    exists r :: r in rs && r.start == i
  }

  ghost predicate Covered(rs: set<Replacement>, i: nat) {
    exists r :: r in rs && r.start <= i < r.end
  }

  ghost predicate OneStart(rs: set<Replacement>) {
    forall a, b :: a in rs && b in rs && a.start == b.start ==> a == b
  }

  /** A position where a span starts contributes the new text, any other covered position nothing, and
      an uncovered one its own character. */
  ghost function Contribution(source: string, rs: set<Replacement>, i: nat): string
    requires i < |source| && OneStart(rs)
  {
    if Starts(rs, i) then
      var r :| r in rs && r.start == i;
      r.text
    else if Covered(rs, i) then
      ""
    else
      [source[i]]
  }

  /** What the source from position `i` on becomes. */
  ghost function Spliced(source: string, rs: set<Replacement>, i: nat): string
    requires i <= |source| && OneStart(rs)
    decreases |source| - i
  {
    if i == |source| then "" else Contribution(source, rs, i) + Spliced(source, rs, i + 1)
  }

  // ---- The loop of the source ----

  /** sorted(..., key=start, reverse=True). */
  function Descending(rs: seq<Replacement>): seq<Replacement> {
    if rs == [] then [] else Insert(Descending(rs[..|rs| - 1]), rs[|rs| - 1])
  }

  /** Later elements go after earlier ones with the same start. */
  function Insert(s: seq<Replacement>, r: Replacement): seq<Replacement> {
    if s == [] then [r] else if s[0].start < r.start then [r] + s else [s[0]] + Insert(s[1..], r)
  }

  /** Phases 3 and 6 of process_file: the loop over the sorted replacements gives the simultaneous
      splice. */
  method ApplyReplacements(source: string, rs: seq<Replacement>) returns (result: string)
    requires Disjoint(rs, |source|)
    ensures OneStart(Elements(rs)) && result == Spliced(source, Elements(rs), 0)
  {
    var ordered := Descending(rs);
    SortOrders(rs, |source|);
    result := source;
    var k := 0;
    ghost var front: nat := |source|;
    ghost var done := {};
    while k < |ordered|
      invariant k <= |ordered| && Ordered(ordered[k..], front) && front <= |source|
      invariant done == Elements(ordered[..k]) && From(done, front)
      invariant result == source[..front] + Spliced(source, done, front)
    {
      var r := ordered[k];
      assert ordered[k..][1..] == ordered[k + 1..];
      NextElement(ordered, k);
      Step(source, done, r, front);
      result := result[..r.start] + r.text + result[r.end..];
      front, done := r.start, done + {r};
      k := k + 1;
    }
    assert ordered[..k] == ordered;
    Untouched(source, done, front);
  }

  // ---- Sorting ----

  function Elements(rs: seq<Replacement>): set<Replacement> {
    set r | r in rs
  }

  /** Spans listed from right to left, each ending where the one before starts or earlier. */
  predicate Ordered(rs: seq<Replacement>, limit: nat) {
    rs == [] || (rs[0].start < rs[0].end <= limit && Ordered(rs[1..], rs[0].start))
  }

  lemma {:induction false} InsertOrders(s: seq<Replacement>, r: Replacement, limit: nat)
    requires Ordered(s, limit) && InText(r, limit)
    requires forall x :: x in s ==> Apart(x, r)
    ensures Ordered(Insert(s, r), limit)
    ensures Elements(Insert(s, r)) == Elements(s) + {r}
  {
    if s != [] {
      assert s == [s[0]] + s[1..];
      assert s[0] in s;
      if s[0].start < r.start {
        assert ([r] + s)[1..] == s;
      } else {
        InsertOrders(s[1..], r, s[0].start);
        InsertElements(s, r);
        assert ([s[0]] + Insert(s[1..], r))[1..] == Insert(s[1..], r);
      }
    }
  }

  lemma InsertElements(s: seq<Replacement>, r: Replacement)
    requires s != [] && Elements(Insert(s[1..], r)) == Elements(s[1..]) + {r}
    ensures Elements([s[0]] + Insert(s[1..], r)) == Elements(s) + {r}
  {
    assert s == [s[0]] + s[1..];
    forall x ensures x in [s[0]] + Insert(s[1..], r) <==> x == s[0] || x in Elements(Insert(s[1..], r)) {
    }
  }

  lemma NextElement(rs: seq<Replacement>, k: nat)
    requires k < |rs|
    ensures Elements(rs[..k + 1]) == Elements(rs[..k]) + {rs[k]}
  {
    assert rs[..k + 1] == rs[..k] + [rs[k]];
  }

  lemma DisjointInit(rs: seq<Replacement>, m: nat, n: nat)
    requires Disjoint(rs, n) && |rs| == m + 1
    ensures Disjoint(rs[..m], n) && InText(rs[m], n) && forall x :: x in rs[..m] ==> Apart(x, rs[m])
  {
  }

  lemma {:induction false} SortOrders(rs: seq<Replacement>, n: nat)
    requires Disjoint(rs, n)
    ensures Ordered(Descending(rs), n) && Elements(Descending(rs)) == Elements(rs)
  {
    if rs != [] {
      var m := |rs| - 1;
      DisjointInit(rs, m, n);
      SortOrders(rs[..m], n);
      var s := Descending(rs[..m]);
      forall x | x in s ensures Apart(x, rs[m]) {
        assert x in Elements(rs[..m]);
      }
      InsertOrders(s, rs[m], n);
      NextElement(rs, m);
      assert rs[..m + 1] == rs;
    }
  }

  // ---- Why the loop works ----

  /** Every span starts at `c` or later, and no two at the same place. */
  ghost predicate From(rs: set<Replacement>, c: nat) {
    OneStart(rs) && forall x :: x in rs ==> c <= x.start
  }

  lemma {:induction false} Copy(source: string, rs: set<Replacement>, i: nat, j: nat)
    requires i <= j <= |source| && OneStart(rs)
    requires forall p: nat :: i <= p < j ==> !Starts(rs, p) && !Covered(rs, p)
    ensures Spliced(source, rs, i) == source[i..j] + Spliced(source, rs, j)
    decreases j - i
  {
    if i < j {
      Copy(source, rs, i + 1, j);
      Regroup(source, i, j, Spliced(source, rs, j));
    }
  }

  lemma Regroup(source: string, i: nat, j: nat, tail: string)
    requires i < j <= |source|
    ensures [source[i]] + (source[i + 1..j] + tail) == source[i..j] + tail
  {
  }

  lemma {:induction false} Skip(source: string, rs: set<Replacement>, i: nat, j: nat)
    requires i <= j <= |source| && OneStart(rs)
    requires forall p: nat :: i <= p < j ==> !Starts(rs, p) && Covered(rs, p)
    ensures Spliced(source, rs, i) == Spliced(source, rs, j)
    decreases j - i
  {
    if i < j { Skip(source, rs, i + 1, j); }
  }

  lemma {:induction false} Frame(source: string, rs: set<Replacement>, r: Replacement, i: nat)
    requires r.start < r.end <= i <= |source| && OneStart(rs + {r})
    ensures Spliced(source, rs + {r}, i) == Spliced(source, rs, i)
    decreases |source| - i
  {
    if i < |source| {
      Frame(source, rs, r, i + 1);
      ContributionFrame(source, rs, r, i);
    }
  }

  lemma ContributionFrame(source: string, rs: set<Replacement>, r: Replacement, i: nat)
    requires r.start < r.end <= i < |source| && OneStart(rs + {r})
    ensures Contribution(source, rs + {r}, i) == Contribution(source, rs, i)
  {
    assert Starts(rs + {r}, i) <==> Starts(rs, i);
    assert Covered(rs + {r}, i) <==> Covered(rs, i);
  }

  lemma Untouched(source: string, rs: set<Replacement>, c: nat)
    requires c <= |source| && From(rs, c)
    ensures source[..c] + Spliced(source, rs, c) == Spliced(source, rs, 0)
  {
    Copy(source, rs, 0, c);
    assert source[0..c] == source[..c];
  }

  lemma Gap(rs: set<Replacement>, r: Replacement, c: nat)
    requires r.start < r.end <= c && From(rs, c)
    ensures From(rs + {r}, r.start) && Starts(rs + {r}, r.start)
    ensures forall p: nat :: r.start < p < r.end ==> !Starts(rs + {r}, p) && Covered(rs + {r}, p)
    ensures forall p: nat :: r.end <= p < c ==> !Starts(rs + {r}, p) && !Covered(rs + {r}, p)
  {
    assert r in rs + {r};
  }

  /** Splicing from the start of a further span: its text, the gap after it, and the rest as before. */
  lemma SplicedFrom(source: string, rs: set<Replacement>, r: Replacement, c: nat)
    requires r.start < r.end <= c <= |source| && From(rs, c)
    ensures From(rs + {r}, r.start)
    ensures Spliced(source, rs + {r}, r.start) == r.text + (source[r.end..c] + Spliced(source, rs, c))
  {
    Gap(rs, r, c);
    assert Contribution(source, rs + {r}, r.start) == r.text;
    Skip(source, rs + {r}, r.start + 1, r.end);
    Copy(source, rs + {r}, r.end, c);
    Frame(source, rs, r, c);
  }

  lemma Step(source: string, rs: set<Replacement>, r: Replacement, c: nat)
    requires r.start < r.end <= c <= |source| && From(rs, c)
    ensures From(rs + {r}, r.start)
    ensures
      var text := source[..c] + Spliced(source, rs, c);
      text[..r.start] + r.text + text[r.end..] == source[..r.start] + Spliced(source, rs + {r}, r.start)
  {
    SplicedFrom(source, rs, r, c);
    CutPaste(source, Spliced(source, rs, c), r.text, r.start, r.end, c);
  }

  lemma CutPaste(source: string, tail: string, text: string, a: nat, b: nat, c: nat)
    requires a <= b <= c <= |source|
    ensures (source[..c] + tail)[..a] + text + (source[..c] + tail)[b..] == source[..a] + (text + (source[b..c] + tail))
  {
  }
}
