/** Applying only the whitelisted changes of a user configuration to the deployed baseline. */
module WhitelistUpdate {
  import opened ConfigTree
  import opened ConfigDiff
  import opened ConfigPaths
  import opened PathAccess

  const DEPLOY_SETTINGS :=
    Section(map[
      "tls_config" := Section(map[
        "north_tls_config" := Leaves(["enable_tls", "ca_file", "cert_file", "key_file", "passwd_file", "crl_file"])])])

  const CONTROLLER_SETTINGS :=
    Section(map[
      "logging_config" := Leaves(["log_level"]),
      "observability_config" := Leaves(["observability_enable", "metrics_ttl"])])

  const EXCEPTION_SETTINGS :=
    ["max_retry", "retry_delay", "first_token_timeout", "decode_first_token_timeout", "infer_timeout"]

  const TIMEOUT_SETTINGS :=
    ["request_timeout", "connection_timeout", "read_timeout", "write_timeout", "keep_alive_timeout",
     "engine_client_keepalive_expiry"]

  const COORDINATOR_SETTINGS :=
    Section(map[
      "logging_config" := Leaves(["log_level"]),
      "exception_config" := Leaves(EXCEPTION_SETTINGS),
      "timeout_config" := Leaves(TIMEOUT_SETTINGS)])

  const UPDATE_CONFIG_WHITELIST: Whitelist :=
    Section(map[
      "motor_deploy_config" := DEPLOY_SETTINGS,
      "north_config" := Leaves(["name", "ip", "port"]),
      "motor_controller_config" := CONTROLLER_SETTINGS,
      "motor_coordinator_config" := COORDINATOR_SETTINGS,
      "motor_nodemanger_config" := Section(map["logging_config" := Leaves(["log_level"])])])

  // ---- The update, on path strings ----

  function Permitted(w: Whitelist, paths: seq<string>): seq<string> {
    if paths == [] then []
    else (if AllowsKeys(w, Normalized(Split(paths[0]))) then [paths[0]] else []) + Permitted(w, paths[1..])
  }

  /** Writing the user's value at each path in turn; a path the user leaves empty is skipped. */
  function ApplyPaths(user: Json, result: Json, paths: seq<string>): Outcome<Json>
    decreases |paths|
  {
    if paths == [] then Ok(result)
    else
      match GetTokens(user, Split(paths[0]))
      case Ok(Null) => ApplyPaths(user, result, paths[1..])
      case Ok(v) =>
        (match SetTokens(result, Split(paths[0]), v)
         case Ok(next) => ApplyPaths(user, next, paths[1..])
         case error => error)
      case error => error
  }

  function Update(w: Whitelist, user: Json, baseline: Json): Outcome<Json> {
    ApplyPaths(user, baseline, Permitted(w, CollectChangedPaths(user, baseline, [])))
  }

  lemma Regroup(a: seq<string>, b: seq<string>, c: seq<string>)
    ensures a + (b + c) == (a + b) + c
  {
  }

  lemma PermittedAppend(w: Whitelist, paths: seq<string>, path: string)
    ensures Permitted(w, paths + [path]) ==
            Permitted(w, paths) + (if AllowsKeys(w, Normalized(Split(path))) then [path] else [])
  {
    if paths == [] {
      assert paths + [path] == [path];
    } else {
      assert (paths + [path])[1..] == paths[1..] + [path];
      PermittedAppend(w, paths[1..], path);
      Regroup(if AllowsKeys(w, Normalized(Split(paths[0]))) then [paths[0]] else [], Permitted(w, paths[1..]),
              if AllowsKeys(w, Normalized(Split(path))) then [path] else []);
    }
  }

  method SelectWhitelisted(w: Whitelist, changed: seq<string>) returns (whitelisted: seq<string>)
    ensures whitelisted == Permitted(w, changed)
  {
    whitelisted := [];
    for i := 0 to |changed|
      invariant whitelisted == Permitted(w, changed[..i])
    {
      var allowed := PathIsWhitelisted(w, changed[i]);
      PermittedAppend(w, changed[..i], changed[i]);
      if allowed { whitelisted := whitelisted + [changed[i]]; }
      assert changed[..i + 1] == changed[..i] + [changed[i]];
    }
    assert changed[..|changed|] == changed;
  }

  method WritePaths(user: Json, baseline: Json, whitelisted: seq<string>) returns (r: Outcome<Json>)
    ensures r == ApplyPaths(user, baseline, whitelisted)
  {
    var result := baseline;
    for i := 0 to |whitelisted|
      invariant ApplyPaths(user, baseline, whitelisted) == ApplyPaths(user, result, whitelisted[i..])
    {
      assert whitelisted[i..][0] == whitelisted[i] && whitelisted[i..][1..] == whitelisted[i + 1..];
      var value := GetValueAtPath(user, whitelisted[i]);
      if !value.Ok? { return value; }
      if value.value != Null {
        var next := SetTokens(result, Split(whitelisted[i]), value.value);
        if !next.Ok? { return next; }
        result := next.value;
      }
    }
    return Ok(result);
  }

  /** The update of the deployed configuration, correct whenever the dotted syntax can carry the keys. */
  method ApplyWhitelistUpdate(w: Whitelist, user: Json, baseline: Json) returns (r: Outcome<Json>)
    ensures r == Update(w, user, baseline)
    ensures ConfigPair(user, baseline) ==> Correct(w, user, baseline, r)
  {
    var changed := CollectChangedPaths(user, baseline, []);
    var whitelisted := SelectWhitelisted(w, changed);
    r := WritePaths(user, baseline, whitelisted);
    if ConfigPair(user, baseline) { UpdateCorrect(w, user, baseline); }
  }

  // ---- What the update means, on places ----

  /** Every key that leads to a value can be written in the dotted syntax. */
  ghost predicate CleanTree(j: Json) {
    forall p :: p != [] && Lookup(j, p) != Null ==> CleanPath(p)
  }

  /** Two parsed configuration files. */
  ghost predicate ConfigPair(user: Json, baseline: Json) {
    user.Obj? && baseline.Obj? && CleanTree(user) && CleanTree(baseline)
  }

  /** A changed whitelisted place that the user fills in. By ConfigDiff.DiffReports the reported
      places are the members of Diff. */
  ghost predicate Applied(w: Whitelist, user: Json, baseline: Json, p: Path) {
    Reported(user, baseline, p) && Allowed(w, p) && Lookup(user, p) != Null
  }

  /** A changed whitelisted place runs through a list directly inside a list. */
  ghost predicate Unwritable(w: Whitelist, user: Json, baseline: Json) {
    exists p :: Reported(user, baseline, p) && Allowed(w, p) && NestedListAt(user, p)
  }

  /** The user's value at and below every applied place, the baseline's wherever no applied place
      lies above or below. */
  ghost predicate Updated(w: Whitelist, user: Json, baseline: Json, result: Json) {
    && (forall p, below :: Applied(w, user, baseline, p) ==> Lookup(result, p + below) == Lookup(user, p + below))
    && (forall q :: (forall p :: Applied(w, user, baseline, p) ==> !Comparable(p, q)) ==>
                      Lookup(result, q) == Lookup(baseline, q))
  }

  ghost predicate Correct(w: Whitelist, user: Json, baseline: Json, r: Outcome<Json>) {
    && (r.Ok? <==> !Unwritable(w, user, baseline))
    && (!r.Ok? ==> r == ValueError)
    && (r.Ok? ==> r.value.Obj? && Updated(w, user, baseline, r.value))
  }

  function PermittedPlaces(w: Whitelist, ps: seq<Path>): (r: seq<Path>)
    ensures forall p :: p in r <==> p in ps && Allowed(w, p)
  {
    if ps == [] then []
    else (if Allowed(w, ps[0]) then [ps[0]] else []) + PermittedPlaces(w, ps[1..])
  }

  lemma RenderCons(p: Path, rest: seq<Path>)
    ensures RenderAll([], [p] + rest) == [Render(p)] + RenderAll([], rest)
  {
  }

  lemma PermittedCons(w: Whitelist, path: string, rest: seq<string>)
    ensures Permitted(w, [path] + rest) ==
            (if AllowsKeys(w, Normalized(Split(path))) then [path] else []) + Permitted(w, rest)
  {
    assert ([path] + rest)[1..] == rest;
  }

  lemma {:induction false} PermittedRender(w: Whitelist, ps: seq<Path>)
    requires forall p :: p in ps ==> CleanPath(p)
    ensures Permitted(w, RenderAll([], ps)) == RenderAll([], PermittedPlaces(w, ps))
  {
    if ps != [] {
      var p, rest := ps[0], ps[1..];
      assert p in ps && ps == [p] + rest;
      WhitelistReadsKeys(w, p);
      PermittedRender(w, rest);
      RenderCons(p, rest);
      PermittedCons(w, Render(p), RenderAll([], rest));
      RenderCons(p, PermittedPlaces(w, rest));
    }
  }

  lemma {:induction false} PermittedPrefixFree(w: Whitelist, ps: seq<Path>)
    requires PrefixFree(ps)
    ensures PrefixFree(PermittedPlaces(w, ps))
  {
    if ps != [] {
      assert PrefixFree(ps[1..]);
      PermittedPrefixFree(w, ps[1..]);
      var rest := PermittedPlaces(w, ps[1..]);
      forall p, q | p in [ps[0]] && q in rest ensures !Comparable(p, q) {
        var j :| 0 <= j < |ps[1..]| && ps[1..][j] == q;
        assert ps[j + 1] == q;
      }
      PrefixFreeConcat([ps[0]], rest);
    }
  }

  lemma FilledPlaceIsFlat(u: Json, p: Path)
    requires Lookup(u, p) != Null && !NestedListAt(u, p)
    ensures !HasNestedList(p)
  {
    forall m: nat | m + 2 < |p| && p[m].Key? && p[m + 1].Index? && p[m + 2].Index?
      ensures StartsNestedList(u, p, m)
    {
      assert p == p[..m] + p[m..];
      LookupAppend(u, p[..m], p[m..]);
      LookupNull(p[m..]);
    }
  }

  /** The pending writes can all be carried out on t. */
  ghost predicate Pending(user: Json, t: Json, ps: seq<Path>) {
    && user.Obj? && t.Obj? && PrefixFree(ps)
    && (forall p :: p in ps ==> CleanPath(p) && Follows(user, p) && (Lookup(user, p) != Null ==> Fits(t, user, p)))
  }

  ghost predicate FilledIn(user: Json, ps: seq<Path>, p: Path) {
    p in ps && Lookup(user, p) != Null
  }

  /** What a run of writes leaves behind. */
  ghost predicate Written(user: Json, t: Json, ps: seq<Path>, r: Outcome<Json>) {
    && (r.Ok? <==> forall p :: p in ps ==> !NestedListAt(user, p))
    && (!r.Ok? ==> r == ValueError)
    && (r.Ok? ==>
          && r.value.Obj?
          && (forall p :: FilledIn(user, ps, p) ==> Lookup(r.value, p) == Lookup(user, p))
          && (forall q :: (forall p :: FilledIn(user, ps, p) ==> !Comparable(p, q)) ==>
              Lookup(r.value, q) == Lookup(t, q)))
  }

  /** One write keeps the remaining ones possible. */
  lemma WriteKeepsPending(user: Json, t: Json, ps: seq<Path>)
    requires Pending(user, t, ps) && ps != [] && Lookup(user, ps[0]) != Null
    ensures SetAt(t, ps[0], Lookup(user, ps[0])).Some?
    ensures Pending(user, SetAt(t, ps[0], Lookup(user, ps[0])).value, ps[1..])
  {
    var p, v := ps[0], Lookup(user, ps[0]);
    assert p in ps;
    FitsWrites(t, user, p, v);
    SetChild(t, p, v, p[0]);
    forall q | q in ps[1..]
      ensures q in ps && (Lookup(user, q) != Null ==> Fits(SetAt(t, p, v).value, user, q))
    {
      var j :| 0 <= j < |ps[1..]| && ps[1..][j] == q;
      assert ps[j + 1] == q && !Comparable(ps[0], ps[j + 1]);
      if Lookup(user, q) != Null { SetKeepsFits(t, user, p, v, q); }
    }
    assert PrefixFree(ps[1..]);
  }

  lemma WrittenStep(user: Json, t: Json, ps: seq<Path>, r: Outcome<Json>)
    requires Pending(user, t, ps) && ps != [] && Lookup(user, ps[0]) != Null && !NestedListAt(user, ps[0])
    requires SetAt(t, ps[0], Lookup(user, ps[0])).Some?
    requires Written(user, SetAt(t, ps[0], Lookup(user, ps[0])).value, ps[1..], r)
    ensures Written(user, t, ps, r)
  {
    var p0, v := ps[0], Lookup(user, ps[0]);
    var t' := SetAt(t, p0, v).value;
    assert ps == [p0] + ps[1..];
    if r.Ok? {
      forall p | FilledIn(user, ps, p) ensures Lookup(r.value, p) == Lookup(user, p) {
        if p !in ps[1..] {
          forall q | FilledIn(user, ps[1..], q) ensures !Comparable(q, p0) {
            var j :| 0 <= j < |ps[1..]| && ps[1..][j] == q;
            assert ps[j + 1] == q;
          }
          SetThenLookupHere(t, p0, v);
        }
      }
      forall q | forall p :: FilledIn(user, ps, p) ==> !Comparable(p, q) ensures Lookup(r.value, q) == Lookup(t, q) {
        assert FilledIn(user, ps, p0);
        assert forall p :: FilledIn(user, ps[1..], p) ==> FilledIn(user, ps, p);
        SetFrame(t, p0, v, q);
      }
    }
  }

  lemma {:induction false} ApplyWrites(user: Json, t: Json, ps: seq<Path>)
    requires Pending(user, t, ps)
    ensures Written(user, t, ps, ApplyPaths(user, t, RenderAll([], ps)))
    decreases |ps|
  {
    if ps != [] {
      var p := ps[0];
      assert p in ps && ps == [p] + ps[1..];
      assert RenderAll([], ps)[0] == Render(p) && RenderAll([], ps)[1..] == RenderAll([], ps[1..]);
      GetFollowed(user, p);
      if !NestedListAt(user, p) {
        if Lookup(user, p) == Null {
          assert PrefixFree(ps[1..]);
          ApplyWrites(user, t, ps[1..]);
          assert forall q :: FilledIn(user, ps, q) <==> FilledIn(user, ps[1..], q);
        } else {
          FilledPlaceIsFlat(user, p);
          SetAtPlace(t, p, Lookup(user, p));
          WriteKeepsPending(user, t, ps);
          var t' := SetAt(t, p, Lookup(user, p)).value;
          ApplyWrites(user, t', ps[1..]);
          WrittenStep(user, t, ps, ApplyPaths(user, t', RenderAll([], ps[1..])));
        }
      }
    }
  }

  lemma {:induction false} ReportedFollows(u: Json, b: Json, p: Path)
    requires Reported(u, b, p)
    ensures Follows(u, p)
    decreases |p|
  {
    if p != [] { ReportedFollows(Child(u, p[0]), Child(b, p[0]), p[1..]); }
  }

  lemma ChangedPlaceIsClean(user: Json, baseline: Json, p: Path)
    requires ConfigPair(user, baseline) && Reported(user, baseline, p)
    ensures CleanPath(p) && Follows(user, p) && (Lookup(user, p) != Null ==> Fits(baseline, user, p))
  {
    ReportedDiffers(user, baseline, p);
    ReportedFollows(user, baseline, p);
    if Lookup(user, p) != Null { ReportedFits(user, baseline, p); }
  }

  /** The permitted strings are the permitted places of the diff, all of them still to be written. */
  lemma PermittedPending(w: Whitelist, user: Json, baseline: Json) returns (ps: seq<Path>)
    requires ConfigPair(user, baseline)
    ensures Permitted(w, CollectChangedPaths(user, baseline, [])) == RenderAll([], ps)
    ensures Pending(user, baseline, ps)
    ensures forall p :: p in ps <==> Reported(user, baseline, p) && Allowed(w, p)
  {
    var all := Diff(user, baseline);
    ps := PermittedPlaces(w, all);
    CollectIsDiff(user, baseline, []);
    forall p
      ensures p in all <==> Reported(user, baseline, p)
      ensures p in all ==>
                CleanPath(p) && Follows(user, p) && (Lookup(user, p) != Null ==> Fits(baseline, user, p))
    {
      DiffReports(user, baseline, p);
      if p in all { ChangedPlaceIsClean(user, baseline, p); }
    }
    PermittedRender(w, all);
    DiffPrefixFree(user, baseline);
    PermittedPrefixFree(w, all);
  }

  /** The update fails exactly on a list inside a list under a whitelisted change; otherwise the
      result carries the user's value at every applied place and the baseline everywhere else. */
  lemma UpdateCorrect(w: Whitelist, user: Json, baseline: Json)
    requires ConfigPair(user, baseline)
    ensures Correct(w, user, baseline, Update(w, user, baseline))
  {
    var ps := PermittedPending(w, user, baseline);
    ApplyWrites(user, baseline, ps);
    var r := Update(w, user, baseline);
    assert forall p :: FilledIn(user, ps, p) <==> Applied(w, user, baseline, p);
    if r.Ok? {
      forall p, below | Applied(w, user, baseline, p)
        ensures Lookup(r.value, p + below) == Lookup(user, p + below)
      {
        LookupAppend(r.value, p, below);
        LookupAppend(user, p, below);
      }
    }
  }

  // ---- Flat lists always update ----

  /** No list of the tree holds a list. */
  ghost predicate FlatLists(j: Json) {
    forall p, i: nat :: Lookup(j, p).Arr? ==> !Child(Lookup(j, p), Index(i)).Arr?
  }

  lemma {:induction false} ReportedThrough(u: Json, b: Json, p: Path, m: nat)
    requires Reported(u, b, p) && m < |p|
    ensures Descends(Lookup(u, p[..m]), Lookup(b, p[..m]))
    ensures Holds(Lookup(u, p[..m]), p[m]) || Holds(Lookup(b, p[..m]), p[m])
    decreases m
  {
    if m == 0 {
      assert p[..0] == [];
      assert Child(u, p[0]) != Null || Child(b, p[0]) != Null;
    } else {
      assert p[..m][0] == p[0] && p[..m][1..] == p[1..][..m - 1];
      ReportedThrough(Child(u, p[0]), Child(b, p[0]), p[1..], m - 1);
    }
  }

  lemma LookupMember(j: Json, q: Path, s: Step)
    ensures Lookup(j, q + [s]) == Child(Lookup(j, q), s)
  {
    LookupAppend(j, q, [s]);
    assert [s][1..] == [];
  }

  lemma FlatAt(j: Json, q: Path, i: nat)
    requires FlatLists(j)
    ensures !Lookup(j, q + [Index(i)]).Arr?
  {
    LookupMember(j, q, Index(i));
  }

  lemma FlatPlace(user: Json, baseline: Json, p: Path, m: nat)
    requires FlatLists(user) && FlatLists(baseline) && Reported(user, baseline, p)
    ensures !StartsNestedList(user, p, m)
  {
    if StartsNestedList(user, p, m) {
      ReportedThrough(user, baseline, p, m + 2);
      assert p[..m + 2] == p[..m + 1] + [p[m + 1]];
      FlatAt(user, p[..m + 1], p[m + 1].i);
      FlatAt(baseline, p[..m + 1], p[m + 1].i);
    }
  }

  /** Configurations without lists inside lists always update. */
  lemma FlatNeverFails(w: Whitelist, user: Json, baseline: Json)
    requires FlatLists(user) && FlatLists(baseline)
    ensures !Unwritable(w, user, baseline)
  {
    forall p, m: nat | Reported(user, baseline, p) ensures !StartsNestedList(user, p, m) {
      FlatPlace(user, baseline, p, m);
    }
  }
}
