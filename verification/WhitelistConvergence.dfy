/** Running the same update a second time. The first run leaves nothing whitelisted to change,
    except below a list that the baseline did not have and whose last items carry no value. */
module WhitelistConvergence {
  import opened ConfigTree
  import opened ConfigDiff
  import opened ConfigPaths
  import opened PathAccess
  import opened WhitelistUpdate

  predicate StrictlyAbove(p: Path, a: Path) {
    |p| < |a| && p <= a
  }

  /** Place a goes through member n, or a later one, of a list at p. */
  predicate Through(p: Path, a: Path, n: nat) {
    StrictlyAbove(p, a) && a[|p|].Index? && a[|p|].i >= n
  }

  lemma Sides(a: Path, p: Path)
    ensures Comparable(a, p) <==> a <= p || StrictlyAbove(p, a)
  {
  }

  // ---- List lengths through writes ----

  lemma SetLengthHere(t: Json, a: Path, v: Json, n: nat)
    requires SetAt(t, a, v).Some? && a != []
    ensures Length(SetAt(t, a, v).value) > n <==> Length(t) > n || (a[0].Index? && a[0].i >= n)
  {
  }

  lemma {:induction false} SetLength(t: Json, a: Path, v: Json, p: Path, n: nat)
    requires SetAt(t, a, v).Some? && StrictlyAbove(p, a)
    ensures Length(Lookup(SetAt(t, a, v).value, p)) > n <==>
            Length(Lookup(t, p)) > n || Through(p, a, n)
    decreases |p|
  {
    if p == [] {
      SetLengthHere(t, a, v, n);
    } else {
      SetChild(t, a, v, a[0]);
      assert p[0] == a[0] && p[1..] <= a[1..];
      SetLength(Child(t, a[0]), a[1..], v, p[1..], n);
    }
  }

  /** Some filled-in place goes through member n, or a later one, of the list at p. */
  ghost predicate Reaches(user: Json, ps: seq<Path>, p: Path, n: nat) {
    exists a :: FilledIn(user, ps, a) && Through(p, a, n)
  }

  lemma SetLengthOrFrame(t: Json, a: Path, v: Json, p: Path, n: nat)
    requires SetAt(t, a, v).Some? && !(a <= p)
    ensures Length(Lookup(SetAt(t, a, v).value, p)) > n <==> Length(Lookup(t, p)) > n || Through(p, a, n)
  {
    Sides(a, p);
    if StrictlyAbove(p, a) { SetLength(t, a, v, p, n); } else { SetFrame(t, a, v, p); }
  }

  lemma ReachesStep(user: Json, ps: seq<Path>, p: Path, n: nat)
    requires ps != []
    ensures Reaches(user, ps, p, n) <==>
            Reaches(user, ps[1..], p, n) || (Lookup(user, ps[0]) != Null && Through(p, ps[0], n))
    ensures forall q :: FilledIn(user, ps[1..], q) ==> FilledIn(user, ps, q)
    ensures Lookup(user, ps[0]) != Null ==> FilledIn(user, ps, ps[0])
  {
    assert ps == [ps[0]] + ps[1..];
    assert forall q :: FilledIn(user, ps, q) <==>
                         FilledIn(user, ps[1..], q) || (q == ps[0] && Lookup(user, ps[0]) != Null);
  }

  lemma RenderedHead(ps: seq<Path>)
    requires ps != []
    ensures RenderAll([], ps) != [] && RenderAll([], ps)[0] == Render(ps[0])
    ensures RenderAll([], ps)[1..] == RenderAll([], ps[1..])
  {
  }

  /** One step of ApplyPaths on written places. */
  lemma ApplyStep(user: Json, t: Json, ps: seq<Path>)
    requires Pending(user, t, ps) && ps != [] && ApplyPaths(user, t, RenderAll([], ps)).Ok?
    ensures Pending(user, t, ps[1..])
    ensures Lookup(user, ps[0]) == Null ==>
              ApplyPaths(user, t, RenderAll([], ps)) == ApplyPaths(user, t, RenderAll([], ps[1..]))
    ensures Lookup(user, ps[0]) != Null ==>
              var w := SetAt(t, ps[0], Lookup(user, ps[0]));
              && w.Some? && Pending(user, w.value, ps[1..])
              && ApplyPaths(user, t, RenderAll([], ps)) == ApplyPaths(user, w.value, RenderAll([], ps[1..]))
  {
    var a := ps[0];
    assert a in ps && PrefixFree(ps[1..]);
    RenderedHead(ps);
    GetFollowed(user, a);
    if Lookup(user, a) != Null {
      FilledPlaceIsFlat(user, a);
      SetAtPlace(t, a, Lookup(user, a));
      WriteKeepsPending(user, t, ps);
    }
  }

  lemma {:induction false} ApplyLength(user: Json, t: Json, ps: seq<Path>, p: Path, n: nat)
    requires Pending(user, t, ps) && ApplyPaths(user, t, RenderAll([], ps)).Ok?
    requires forall a :: FilledIn(user, ps, a) ==> !(a <= p)
    ensures Length(Lookup(ApplyPaths(user, t, RenderAll([], ps)).value, p)) > n <==>
            Length(Lookup(t, p)) > n || Reaches(user, ps, p, n)
    decreases |ps|
  {
    if ps != [] {
      ApplyStep(user, t, ps);
      ReachesStep(user, ps, p, n);
      if Lookup(user, ps[0]) == Null {
        ApplyLength(user, t, ps[1..], p, n);
      } else {
        SetLengthOrFrame(t, ps[0], Lookup(user, ps[0]), p, n);
        ApplyLength(user, SetAt(t, ps[0], Lookup(user, ps[0])).value, ps[1..], p, n);
      }
    }
  }

  ghost predicate WritesMember(w: Whitelist, user: Json, baseline: Json, p: Path, n: nat) {
    exists a :: Applied(w, user, baseline, a) && Through(p, a, n)
  }

  /** No write replaces the value at p or anything above it. */
  ghost predicate KeptOpen(w: Whitelist, user: Json, baseline: Json, p: Path) {
    forall a :: Applied(w, user, baseline, a) ==> !(a <= p)
  }

  /** A list of the result is as long as the baseline's, or as the highest member written into it. */
  ghost predicate LengthLaw(w: Whitelist, user: Json, baseline: Json, result: Json, p: Path, n: nat) {
    KeptOpen(w, user, baseline, p) ==>
      (Length(Lookup(result, p)) > n <==>
       Length(Lookup(baseline, p)) > n || WritesMember(w, user, baseline, p, n))
  }

  /** What is known after a first run that succeeded. */
  ghost predicate FirstRun(w: Whitelist, user: Json, baseline: Json, result: Json) {
    && ConfigPair(user, baseline) && result.Obj?
    && !Unwritable(w, user, baseline)
    && Updated(w, user, baseline, result)
    && (forall p, n: nat :: LengthLaw(w, user, baseline, result, p, n))
  }

  lemma ReachesIsWrites(w: Whitelist, user: Json, baseline: Json, ps: seq<Path>, p: Path, n: nat)
    requires forall q :: q in ps <==> Reported(user, baseline, q) && Allowed(w, q)
    ensures Reaches(user, ps, p, n) <==> WritesMember(w, user, baseline, p, n)
    ensures KeptOpen(w, user, baseline, p) ==> forall a :: FilledIn(user, ps, a) ==> !(a <= p)
  {
    assert forall q :: FilledIn(user, ps, q) <==> Applied(w, user, baseline, q);
  }

  lemma ApplyLengthLaw(w: Whitelist, user: Json, baseline: Json, ps: seq<Path>, result: Json, p: Path, n: nat)
    requires Pending(user, baseline, ps) && ApplyPaths(user, baseline, RenderAll([], ps)) == Ok(result)
    requires forall q :: q in ps <==> Reported(user, baseline, q) && Allowed(w, q)
    ensures LengthLaw(w, user, baseline, result, p, n)
  {
    if KeptOpen(w, user, baseline, p) {
      ReachesIsWrites(w, user, baseline, ps, p, n);
      ApplyLength(user, baseline, ps, p, n);
    }
  }

  lemma FirstRunSettles(w: Whitelist, user: Json, baseline: Json, result: Json)
    requires ConfigPair(user, baseline) && Update(w, user, baseline) == Ok(result)
    ensures FirstRun(w, user, baseline, result)
  {
    var ps := PermittedPending(w, user, baseline);
    forall p, n: nat ensures LengthLaw(w, user, baseline, result, p, n) {
      ApplyLengthLaw(w, user, baseline, ps, result, p, n);
    }
    UpdateCorrect(w, user, baseline);
  }

  // ---- What a second diff can still report ----

  /** The list at p is new to the baseline and nothing is written into its last item. */
  ghost predicate ShortTail(w: Whitelist, user: Json, baseline: Json, p: Path) {
    && Lookup(user, p).Arr? && Lookup(user, p).items != [] && Lookup(baseline, p) == Null
    && !WritesMember(w, user, baseline, p, |Lookup(user, p).items| - 1)
  }

  /** A whitelisted list written only in part: the first such list on its path. */
  ghost predicate StaleList(w: Whitelist, user: Json, baseline: Json, p: Path) {
    && Allowed(w, p)
    && ShortTail(w, user, baseline, p)
    && (exists a :: Applied(w, user, baseline, a) && StrictlyAbove(p, a))
    && (forall r :: StrictlyAbove(r, p) ==> !ShortTail(w, user, baseline, r))
  }

  lemma {:induction false} EndsNeverSame(x: Json)
    ensures !Ends(x, x)
  {
  }

  lemma {:induction false} ReportedBelow(u: Json, b: Json, p: Path)
    ensures Reported(u, b, p) <==>
            Ends(Lookup(u, p), Lookup(b, p)) &&
            forall r :: StrictlyAbove(r, p) ==> Descends(Lookup(u, r), Lookup(b, r))
    decreases |p|
  {
    if p != [] {
      ReportedBelow(Child(u, p[0]), Child(b, p[0]), p[1..]);
      var u', b' := Child(u, p[0]), Child(b, p[0]);
      forall r | StrictlyAbove(r, p[1..])
        ensures StrictlyAbove([p[0]] + r, p) && ([p[0]] + r)[1..] == r
      {
      }
      if forall r :: StrictlyAbove(r, p) ==> Descends(Lookup(u, r), Lookup(b, r)) {
        assert StrictlyAbove([], p);
        forall r | StrictlyAbove(r, p[1..]) ensures Descends(Lookup(u', r), Lookup(b', r)) {
          assert StrictlyAbove([p[0]] + r, p);
        }
      }
      if Reported(u, b, p) {
        forall r | StrictlyAbove(r, p) ensures Descends(Lookup(u, r), Lookup(b, r)) {
          if r != [] { assert StrictlyAbove(r[1..], p[1..]); }
        }
      }
    }
  }

  lemma AppliedIsWritten(w: Whitelist, user: Json, baseline: Json, result: Json, a: Path)
    requires FirstRun(w, user, baseline, result) && Applied(w, user, baseline, a)
    ensures Lookup(result, a) == Lookup(user, a)
  {
    assert a + [] == a;
  }

  lemma FilledThrough(j: Json, r: Path, a: Path)
    requires Lookup(j, a) != Null && StrictlyAbove(r, a)
    ensures Holds(Lookup(j, r), a[|r|])
    ensures a[|r|].Index? ==> a[|r|].i < Length(Lookup(j, r))
  {
    var rest := a[|r|..];
    assert a == r + rest && rest[0] == a[|r|];
    LookupAppend(j, r, rest);
    LookupNull(rest[1..]);
  }

  /** Above an applied place all three trees have matching containers. */
  lemma AboveApplied(w: Whitelist, user: Json, baseline: Json, result: Json, r: Path, a: Path)
    requires FirstRun(w, user, baseline, result) && Applied(w, user, baseline, a) && StrictlyAbove(r, a)
    ensures Descends(Lookup(user, r), Lookup(baseline, r)) && SameKind(Lookup(user, r), Lookup(result, r))
    ensures KeptOpen(w, user, baseline, r)
  {
    AppliedIsWritten(w, user, baseline, result, a);
    ReportedBelow(user, baseline, a);
    FilledThrough(user, r, a);
    FilledThrough(result, r, a);
    forall a' | Applied(w, user, baseline, a') && a' <= r ensures false {
      assert a' <= a;
      ReportedApart(user, baseline, a', a);
    }
  }

  lemma NoMemberBeyond(w: Whitelist, user: Json, baseline: Json, r: Path, n: nat)
    requires Length(Lookup(user, r)) <= n
    ensures !WritesMember(w, user, baseline, r, n)
  {
    forall a | Applied(w, user, baseline, a) ensures !Through(r, a, n) {
      if StrictlyAbove(r, a) { FilledThrough(user, r, a); }
    }
  }

  /** A list above an applied place ends up as long as the user's unless its tail stays unwritten. */
  lemma ListLength(w: Whitelist, user: Json, baseline: Json, result: Json, r: Path, a: Path)
    requires FirstRun(w, user, baseline, result) && Applied(w, user, baseline, a) && StrictlyAbove(r, a)
    requires Lookup(user, r).Arr?
    ensures Lookup(result, r).Arr?
    ensures Length(Lookup(result, r)) == Length(Lookup(user, r)) <==> !ShortTail(w, user, baseline, r)
  {
    AboveApplied(w, user, baseline, result, r, a);
    var n := Length(Lookup(user, r));
    assert n >= 1 by { FilledThrough(user, r, a); }
    NoMemberBeyond(w, user, baseline, r, n);
    LengthSettles(w, user, baseline, result, r, n);
  }

  lemma LengthSettles(w: Whitelist, user: Json, baseline: Json, result: Json, r: Path, n: nat)
    requires Lookup(user, r).Arr? && n == Length(Lookup(user, r)) >= 1
    requires Descends(Lookup(user, r), Lookup(baseline, r)) && KeptOpen(w, user, baseline, r)
    requires LengthLaw(w, user, baseline, result, r, n) && LengthLaw(w, user, baseline, result, r, n - 1)
    requires !WritesMember(w, user, baseline, r, n)
    ensures Length(Lookup(result, r)) == n <==> !ShortTail(w, user, baseline, r)
  {
  }

  lemma NotBelowApplied(w: Whitelist, user: Json, baseline: Json, result: Json, p: Path, a: Path)
    requires FirstRun(w, user, baseline, result) && Reported(user, result, p) && Applied(w, user, baseline, a)
    ensures !(a <= p)
  {
    if a <= p {
      assert p == a + p[|a|..];
      ReportedDiffers(user, result, p);
      EndsNeverSame(Lookup(user, p));
    }
  }

  /** Below a successful first run, the second diff repeats an old report or stops above a write. */
  lemma SecondReport(w: Whitelist, user: Json, baseline: Json, result: Json, p: Path)
    requires FirstRun(w, user, baseline, result) && Reported(user, result, p)
    ensures || (exists a :: Applied(w, user, baseline, a) && StrictlyAbove(p, a))
            || (Reported(user, baseline, p) && !Applied(w, user, baseline, p))
  {
    ReportedBelow(user, result, p);
    if !exists a :: Applied(w, user, baseline, a) && StrictlyAbove(p, a) {
      forall a | Applied(w, user, baseline, a) ensures !Comparable(a, p) && !(a <= p) {
        Sides(a, p);
        NotBelowApplied(w, user, baseline, result, p, a);
      }
      assert Lookup(result, p) == Lookup(baseline, p);
      forall r | StrictlyAbove(r, p) ensures Descends(Lookup(user, r), Lookup(baseline, r)) {
        if a :| Applied(w, user, baseline, a) && StrictlyAbove(r, a) {
          AboveApplied(w, user, baseline, result, r, a);
        } else {
          forall a | Applied(w, user, baseline, a) ensures !Comparable(a, r) {
            Sides(a, r);
            assert a <= r ==> a <= p;
          }
          assert Lookup(result, r) == Lookup(baseline, r);
        }
      }
      ReportedBelow(user, baseline, p);
      assert Comparable(p, p);
    }
  }

  lemma WrittenAgainIsStale(w: Whitelist, user: Json, baseline: Json, result: Json, p: Path)
    requires FirstRun(w, user, baseline, result) && Applied(w, user, result, p)
    ensures StaleList(w, user, baseline, p)
  {
    ReportedBelow(user, result, p);
    SecondReport(w, user, baseline, result, p);
    var a :| Applied(w, user, baseline, a) && StrictlyAbove(p, a);
    AboveApplied(w, user, baseline, result, p, a);
    assert Lookup(user, p).Arr?;
    ListLength(w, user, baseline, result, p, a);
    forall r | StrictlyAbove(r, p) ensures !ShortTail(w, user, baseline, r) {
      assert StrictlyAbove(r, a);
      if Lookup(user, r).Arr? { ListLength(w, user, baseline, result, r, a); }
    }
  }

  lemma StillDescends(w: Whitelist, user: Json, baseline: Json, result: Json, r: Path, a: Path)
    requires FirstRun(w, user, baseline, result) && Applied(w, user, baseline, a) && StrictlyAbove(r, a)
    requires !ShortTail(w, user, baseline, r)
    ensures Descends(Lookup(user, r), Lookup(result, r))
  {
    AboveApplied(w, user, baseline, result, r, a);
    if Lookup(user, r).Arr? { ListLength(w, user, baseline, result, r, a); }
  }

  lemma StaleIsWrittenAgain(w: Whitelist, user: Json, baseline: Json, result: Json, p: Path)
    requires FirstRun(w, user, baseline, result) && StaleList(w, user, baseline, p)
    ensures Applied(w, user, result, p)
  {
    var a :| Applied(w, user, baseline, a) && StrictlyAbove(p, a);
    ListLength(w, user, baseline, result, p, a);
    forall r | StrictlyAbove(r, p) ensures Descends(Lookup(user, r), Lookup(result, r)) {
      assert StrictlyAbove(r, a);
      StillDescends(w, user, baseline, result, r, a);
    }
    assert Ends(Lookup(user, p), Lookup(result, p));
    ReportedBelow(user, result, p);
  }

  /** The places a second run still writes are exactly the stale lists. */
  lemma SecondRunWrites(w: Whitelist, user: Json, baseline: Json, result: Json, p: Path)
    requires FirstRun(w, user, baseline, result)
    ensures Applied(w, user, result, p) <==> StaleList(w, user, baseline, p)
  {
    if Applied(w, user, result, p) { WrittenAgainIsStale(w, user, baseline, result, p); }
    if StaleList(w, user, baseline, p) { StaleIsWrittenAgain(w, user, baseline, result, p); }
  }

  // ---- The second run as a whole ----

  lemma ResultIsClean(w: Whitelist, user: Json, baseline: Json, result: Json)
    requires FirstRun(w, user, baseline, result)
    ensures ConfigPair(user, result)
  {
    forall p | p != [] && Lookup(result, p) != Null ensures CleanPath(p) {
      if a :| Applied(w, user, baseline, a) && Comparable(a, p) {
        if a <= p {
          assert p == a + p[|a|..];
        } else {
          ChangedPlaceIsClean(user, baseline, a);
          assert forall i :: 0 <= i < |p| ==> p[i] == a[i];
        }
      }
    }
  }

  lemma NestedListBelow(user: Json, p: Path, a: Path)
    requires p <= a && NestedListAt(user, p)
    ensures NestedListAt(user, a)
  {
    var m: nat :| StartsNestedList(user, p, m);
    assert forall i :: 0 <= i < |p| ==> p[i] == a[i];
    assert a[..m] == p[..m];
    assert StartsNestedList(user, a, m);
  }

  lemma SecondRunSucceeds(w: Whitelist, user: Json, baseline: Json, result: Json)
    requires FirstRun(w, user, baseline, result)
    ensures !Unwritable(w, user, result)
  {
    forall p | Reported(user, result, p) && Allowed(w, p) ensures !NestedListAt(user, p) {
      SecondReport(w, user, baseline, result, p);
      if NestedListAt(user, p) {
        if a :| Applied(w, user, baseline, a) && StrictlyAbove(p, a) { NestedListBelow(user, p, a); }
      }
    }
  }

  lemma {:induction false} NothingToWrite(user: Json, t: Json, ps: seq<Path>)
    requires user != Null
    requires forall p :: p in ps ==>
               CleanPath(p) && Follows(user, p) && !NestedListAt(user, p) && Lookup(user, p) == Null
    ensures ApplyPaths(user, t, RenderAll([], ps)) == Ok(t)
    decreases |ps|
  {
    if ps != [] {
      assert ps[0] in ps;
      GetFollowed(user, ps[0]);
      assert RenderAll([], ps)[1..] == RenderAll([], ps[1..]);
      NothingToWrite(user, t, ps[1..]);
    }
  }

  lemma QuietSecondRun(w: Whitelist, user: Json, baseline: Json, result: Json)
    requires FirstRun(w, user, baseline, result)
    requires !exists p :: StaleList(w, user, baseline, p)
    ensures Update(w, user, result) == Ok(result)
  {
    ResultIsClean(w, user, baseline, result);
    SecondRunSucceeds(w, user, baseline, result);
    var ps := PermittedPending(w, user, result);
    forall p | p in ps ensures Lookup(user, p) == Null && !NestedListAt(user, p) {
      SecondRunWrites(w, user, baseline, result, p);
    }
    NothingToWrite(user, result, ps);
  }

  /** Updating twice is the same as updating once exactly when no stale list is left. */
  lemma SecondRunIsIdle(w: Whitelist, user: Json, baseline: Json)
    requires ConfigPair(user, baseline) && Update(w, user, baseline).Ok?
    ensures var result := Update(w, user, baseline).value;
            Update(w, user, result) == Ok(result) <==> !exists p :: StaleList(w, user, baseline, p)
  {
    var result := Update(w, user, baseline).value;
    FirstRunSettles(w, user, baseline, result);
    if p :| StaleList(w, user, baseline, p) {
      StaleIsChanged(w, user, baseline, result, p);
    } else {
      QuietSecondRun(w, user, baseline, result);
    }
  }

  lemma StaleIsChanged(w: Whitelist, user: Json, baseline: Json, result: Json, p: Path)
    requires FirstRun(w, user, baseline, result) && StaleList(w, user, baseline, p)
    ensures Update(w, user, result) != Ok(result)
  {
    StaleIsWrittenAgain(w, user, baseline, result, p);
    var a :| Applied(w, user, baseline, a) && StrictlyAbove(p, a);
    ListLength(w, user, baseline, result, p, a);
    ResultIsClean(w, user, baseline, result);
    if Update(w, user, result) == Ok(result) {
      FirstRunSettles(w, user, result, result);
      AppliedIsWritten(w, user, result, result, p);
    }
  }
}
