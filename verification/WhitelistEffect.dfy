/** What the whitelist lets through, and what that does to single values of a configuration. */
module WhitelistEffect {
  import opened ConfigTree
  import opened ConfigDiff
  import opened PathAccess
  import opened WhitelistUpdate

  // ---- The whitelist as a list of keys ----

  /** The key lists that the whitelist tree spells out: the sections on the way and one listed name. */
  function Spelled(w: Whitelist): set<seq<string>> {
    match w
    case Leaves(names) => set n | n in names :: [n]
    case Section(parts) => set k, rest | k in parts && rest in Spelled(parts[k]) :: [k] + rest
  }

  /** Walking down the tree accepts exactly the spelled key lists. */
  lemma {:induction false} AllowedIff(w: Whitelist, keys: seq<string>)
    ensures AllowsKeys(w, keys) <==> keys in Spelled(w)
  {
    match w
    case Leaves(names) =>
      if AllowsKeys(w, keys) { assert keys == [keys[0]] && keys[0] in names; }
    case Section(parts) =>
      if keys != [] && keys[0] in parts {
        AllowedIff(parts[keys[0]], keys[1..]);
        assert keys == [keys[0]] + keys[1..];
      }
      if keys in Spelled(w) {
        var k, rest :| k in parts && rest in Spelled(parts[k]) && keys == [k] + rest;
        assert keys[0] == k && keys[1..] == rest;
      }
  }

  /** No spelled list continues another one. */
  lemma {:induction false} SpelledApart(w: Whitelist, a: seq<string>, b: seq<string>)
    requires AllowsKeys(w, a) && AllowsKeys(w, b) && a <= b
    ensures a == b
  {
    if w.Section? { SpelledApart(w.parts[a[0]], a[1..], b[1..]); }
  }

  predicate Two(keys: seq<string>, a: string, names: set<string>) {
    |keys| == 2 && keys[0] == a && keys[1] in names
  }

  predicate Three(keys: seq<string>, a: string, b: string, names: set<string>) {
    |keys| == 3 && keys[0] == a && keys[1] == b && keys[2] in names
  }

  predicate Four(keys: seq<string>, a: string, b: string, c: string, names: set<string>) {
    |keys| == 4 && keys[0] == a && keys[1] == b && keys[2] == c && keys[3] in names
  }

  const TLS_NAMES := {"enable_tls", "ca_file", "cert_file", "key_file", "passwd_file", "crl_file"}
  const EXCEPTION_NAMES :=
    {"max_retry", "retry_delay", "first_token_timeout", "decode_first_token_timeout", "infer_timeout"}
  const TIMEOUT_NAMES :=
    {"request_timeout", "connection_timeout", "read_timeout", "write_timeout", "keep_alive_timeout",
     "engine_client_keepalive_expiry"}

  /** The settings that can be updated, one line for each section. */
  predicate Updatable(keys: seq<string>) {
    || Four(keys, "motor_deploy_config", "tls_config", "north_tls_config", TLS_NAMES)
    || Two(keys, "north_config", {"name", "ip", "port"})
    || Three(keys, "motor_controller_config", "logging_config", {"log_level"})
    || Three(keys, "motor_controller_config", "observability_config", {"observability_enable", "metrics_ttl"})
    || Three(keys, "motor_coordinator_config", "logging_config", {"log_level"})
    || Three(keys, "motor_coordinator_config", "exception_config", EXCEPTION_NAMES)
    || Three(keys, "motor_coordinator_config", "timeout_config", TIMEOUT_NAMES)
    || Three(keys, "motor_nodemanger_config", "logging_config", {"log_level"})
  }

  lemma LeavesAllow(names: seq<string>, keys: seq<string>)
    ensures AllowsKeys(Leaves(names), keys) <==> |keys| == 1 && keys[0] in names
  {
  }

  lemma SectionAllows(parts: map<string, Whitelist>, keys: seq<string>)
    ensures AllowsKeys(Section(parts), keys) <==>
            keys != [] && keys[0] in parts && AllowsKeys(parts[keys[0]], keys[1..])
  {
  }

  lemma DeployAllows(keys: seq<string>)
    ensures AllowsKeys(DEPLOY_SETTINGS, keys) <==>
            |keys| == 3 && keys[0] == "tls_config" && keys[1] == "north_tls_config" && keys[2] in TLS_NAMES
  {
    if keys != [] && keys[0] == "tls_config" {
      var tls := DEPLOY_SETTINGS.parts["tls_config"];
      SectionAllows(tls.parts, keys[1..]);
      if |keys| > 1 && keys[1] == "north_tls_config" {
        LeavesAllow(tls.parts["north_tls_config"].names, keys[1..][1..]);
      }
    }
  }

  /** One section that lists its names. */
  lemma ListAllows(parts: map<string, Whitelist>, names: seq<string>, keys: seq<string>)
    requires keys != [] && keys[0] in parts && parts[keys[0]] == Leaves(names)
    ensures AllowsKeys(Section(parts), keys) <==> |keys| == 2 && keys[1] in names
  {
    LeavesAllow(names, keys[1..]);
  }

  lemma ControllerAllows(keys: seq<string>)
    ensures AllowsKeys(CONTROLLER_SETTINGS, keys) <==>
            |keys| == 2 && ((keys[0] == "logging_config" && keys[1] in {"log_level"}) ||
                            (keys[0] == "observability_config" && keys[1] in {"observability_enable", "metrics_ttl"}))
  {
    var parts := CONTROLLER_SETTINGS.parts;
    SectionAllows(parts, keys);
    if keys != [] && keys[0] in parts { ListAllows(parts, parts[keys[0]].names, keys); }
  }

  lemma CoordinatorAllows(keys: seq<string>)
    ensures AllowsKeys(COORDINATOR_SETTINGS, keys) <==>
            |keys| == 2 && ((keys[0] == "logging_config" && keys[1] in {"log_level"}) ||
                            (keys[0] == "exception_config" && keys[1] in EXCEPTION_SETTINGS) ||
                            (keys[0] == "timeout_config" && keys[1] in TIMEOUT_SETTINGS))
  {
    ThreeLists("logging_config", ["log_level"], "exception_config", EXCEPTION_SETTINGS, "timeout_config",
               TIMEOUT_SETTINGS, keys);
  }

  lemma ThreeLists(a: string, xs: seq<string>, b: string, ys: seq<string>, c: string, zs: seq<string>,
                   keys: seq<string>)
    requires a != b && a != c && b != c
    ensures AllowsKeys(Section(map[a := Leaves(xs), b := Leaves(ys), c := Leaves(zs)]), keys) <==>
            |keys| == 2 && ((keys[0] == a && keys[1] in xs) || (keys[0] == b && keys[1] in ys) ||
                            (keys[0] == c && keys[1] in zs))
  {
    var parts := map[a := Leaves(xs), b := Leaves(ys), c := Leaves(zs)];
    SectionAllows(parts, keys);
    if keys != [] && keys[0] in parts { ListAllows(parts, parts[keys[0]].names, keys); }
  }

  lemma ListedNames(k: string)
    ensures k in EXCEPTION_SETTINGS <==> k in EXCEPTION_NAMES
    ensures k in TIMEOUT_SETTINGS <==> k in TIMEOUT_NAMES
  {
  }

  lemma LoggingAllows(keys: seq<string>)
    ensures AllowsKeys(Section(map["logging_config" := Leaves(["log_level"])]), keys) <==>
            |keys| == 2 && keys[0] == "logging_config" && keys[1] in {"log_level"}
  {
    SectionAllows(map["logging_config" := Leaves(["log_level"])], keys);
    if keys != [] { LeavesAllow(["log_level"], keys[1..]); }
  }

  /** The deployer's whitelist allows exactly these settings. */
  lemma UpdatableIff(keys: seq<string>)
    ensures AllowsKeys(UPDATE_CONFIG_WHITELIST, keys) <==> Updatable(keys)
  {
    SectionAllows(UPDATE_CONFIG_WHITELIST.parts, keys);
    if keys != [] {
      var rest := keys[1..];
      DeployAllows(rest);
      ControllerAllows(rest);
      CoordinatorAllows(rest);
      if |rest| > 1 { ListedNames(rest[1]); }
      LoggingAllows(rest);
      LeavesAllow(["name", "ip", "port"], rest);
    }
  }

  // ---- Keys along a place ----

  lemma {:induction false} KeysAppend(p: Path, q: Path)
    ensures KeysOf(p + q) == KeysOf(p) + KeysOf(q)
    decreases |p|
  {
    if p == [] {
      assert p + q == q;
    } else {
      KeysAppend(p[1..], q);
      assert (p + q)[1..] == p[1..] + q;
    }
  }

  lemma KeysGrow(p: Path, q: Path)
    requires p <= q
    ensures KeysOf(p) <= KeysOf(q)
  {
    assert q == p + q[|p|..];
    KeysAppend(p, q[|p|..]);
  }

  // ---- Equal scalars ----

  /** The same scalar, or True for 1, or False for 0. */
  predicate EqualScalars(x: Json, y: Json) {
    x.Leaf? && y.Leaf? &&
    (x.v == y.v || {x.v, y.v} == {Flag(true), Number(1.0)} || {x.v, y.v} == {Flag(false), Number(0.0)})
  }

  lemma SameIsEqual(x: Json, y: Json)
    ensures SameScalar(x, y) <==> EqualScalars(x, y)
  {
    if x.Leaf? && y.Leaf? {
      var one, zero := Number(1.0), Number(0.0);
      if EqualScalars(x, y) && x.v != y.v {
        assert x.v in {x.v, y.v} && y.v in {x.v, y.v};
      }
      if ScalarEqual(x.v, y.v) && x.v != y.v {
        if x.v.Flag? { assert {x.v, y.v} == {Flag(x.v.b), if x.v.b then one else zero}; }
        else { assert {x.v, y.v} == {Flag(y.v.b), if y.v.b then one else zero}; }
      }
    }
  }

  // ---- Single values ----

  /** Above the last key of q, the two trees have sections or lists of the same length, or the baseline has
      nothing. */
  ghost predicate NoClash(user: Json, baseline: Json, q: Path) {
    forall r :: r <= q && |KeysOf(r)| < |KeysOf(q)| ==>
                  var u, b := Lookup(user, r), Lookup(baseline, r);
                  b == Null || (u.Obj? && b.Obj?) || (u.Arr? && b.Arr? && |u.items| == |b.items|)
  }

  lemma AboveScalar(j: Json, r: Path, q: Path)
    requires r <= q && r != q && Lookup(j, q) != Null
    ensures Lookup(j, r).Obj? || Lookup(j, r).Arr?
  {
    assert q == r + q[|r|..];
    LookupAppend(j, r, q[|r|..]);
    if Lookup(j, r) == Null || Lookup(j, r).Leaf? {
      LookupNull(q[|r|..][1..]);
      assert false;
    }
  }

  lemma AppliedAbove(w: Whitelist, user: Json, baseline: Json, result: Json, p: Path, q: Path)
    requires Updated(w, user, baseline, result) && Applied(w, user, baseline, p) && p <= q
    ensures Lookup(result, q) == Lookup(user, q)
  {
    assert q == p + q[|p|..];
  }

  /** Nothing is written below a scalar of the user, so a place without a write at or above it keeps the
      baseline's value. */
  lemma NothingAbove(w: Whitelist, user: Json, baseline: Json, result: Json, q: Path)
    requires Updated(w, user, baseline, result) && Lookup(user, q).Leaf?
    requires forall p :: Applied(w, user, baseline, p) ==> !(p <= q)
    ensures Lookup(result, q) == Lookup(baseline, q)
  {
    forall p | Applied(w, user, baseline, p) ensures !Comparable(p, q) {
      if q <= p { AboveScalar(user, q, p); }
    }
  }

  lemma ReportedHere(w: Whitelist, user: Json, baseline: Json, q: Path, p: Path)
    requires Allowed(w, q) && Lookup(user, q).Leaf? && p <= q && Reported(user, baseline, p)
    requires NoClash(user, baseline, q)
    ensures Applied(w, user, baseline, p)
  {
    KeysGrow(p, q);
    ReportedDiffers(user, baseline, p);
    if p != q { AboveScalar(user, p, q); }
    assert KeysOf(p) == KeysOf(q) by { assert |KeysOf(p)| == |KeysOf(q)|; }
  }

  lemma ClashStops(w: Whitelist, user: Json, baseline: Json, q: Path, p: Path)
    requires Allowed(w, q) && Lookup(user, q).Leaf? && !NoClash(user, baseline, q)
    requires Applied(w, user, baseline, p)
    ensures !(p <= q)
  {
    if p <= q {
      KeysGrow(p, q);
      SpelledApart(w, KeysOf(p), KeysOf(q));
      var r :| r <= q && |KeysOf(r)| < |KeysOf(q)| &&
               !(var u, b := Lookup(user, r), Lookup(baseline, r);
                 b == Null || (u.Obj? && b.Obj?) || (u.Arr? && b.Arr? && |u.items| == |b.items|));
      if p <= r { KeysGrow(p, r); }
      assert r <= p && r != p;
      ReportedThrough(user, baseline, p, |r|);
      assert p[..|r|] == r;
      AboveScalar(user, r, q);
    }
  }

  /** After a successful update, a scalar that the user has at a listed setting is in the result if and
      only if nothing clashes above it or the baseline had it already. */
  lemma ListedScalarArrivesIff(w: Whitelist, user: Json, baseline: Json, q: Path)
    requires ConfigPair(user, baseline) && Update(w, user, baseline).Ok?
    requires KeysOf(q) in Spelled(w) && Lookup(user, q).Leaf?
    ensures EqualScalars(Lookup(Update(w, user, baseline).value, q), Lookup(user, q)) <==>
            NoClash(user, baseline, q) || EqualScalars(Lookup(baseline, q), Lookup(user, q))
  {
    var result := Update(w, user, baseline).value;
    UpdateCorrect(w, user, baseline);
    AllowedIff(w, KeysOf(q));
    SameIsEqual(Lookup(user, q), Lookup(baseline, q));
    SameIsEqual(Lookup(user, q), Lookup(user, q));
    SameIsEqual(Lookup(baseline, q), Lookup(user, q));
    if p :| Applied(w, user, baseline, p) && p <= q {
      AppliedAbove(w, user, baseline, result, p, q);
      if !NoClash(user, baseline, q) { ClashStops(w, user, baseline, q, p); }
    } else {
      NothingAbove(w, user, baseline, result, q);
      if NoClash(user, baseline, q) && !SameScalar(Lookup(user, q), Lookup(baseline, q)) {
        var p := DiffComplete(user, baseline, q);
        DiffReports(user, baseline, p);
        ReportedHere(w, user, baseline, q, p);
      }
    }
  }

  /** A place whose keys neither lead to a listed setting nor continue one keeps the baseline's value. */
  lemma UnlistedStays(w: Whitelist, user: Json, baseline: Json, q: Path)
    requires ConfigPair(user, baseline) && Update(w, user, baseline).Ok?
    requires forall keys :: keys in Spelled(w) ==> !(keys <= KeysOf(q)) && !(KeysOf(q) <= keys)
    ensures Lookup(Update(w, user, baseline).value, q) == Lookup(baseline, q)
  {
    UpdateCorrect(w, user, baseline);
    forall p | Applied(w, user, baseline, p) ensures !Comparable(p, q) {
      AllowedIff(w, KeysOf(p));
      if p <= q { KeysGrow(p, q); }
      if q <= p { KeysGrow(q, p); }
    }
  }

  /** Two present values that are not compared member by member and are not equal. */
  predicate Parted(u: Json, b: Json) {
    u != Null && b != Null && !(u.Obj? && b.Obj?) && !(u.Arr? && b.Arr? && |u.items| == |b.items|) &&
    !EqualScalars(u, b)
  }

  /** Strictly above q both trees have sections, or lists of the same length. */
  ghost predicate Open(user: Json, baseline: Json, q: Path) {
    forall r :: r <= q && r != q ==>
                  var u, b := Lookup(user, r), Lookup(baseline, r);
                  (u.Obj? && b.Obj?) || (u.Arr? && b.Arr? && |u.items| == |b.items|)
  }

  lemma {:induction false} OpenReported(user: Json, baseline: Json, q: Path)
    requires Open(user, baseline, q) && Parted(Lookup(user, q), Lookup(baseline, q))
    ensures Reported(user, baseline, q)
    decreases |q|
  {
    SameIsEqual(Lookup(user, q), Lookup(baseline, q));
    if q != [] {
      assert Lookup(user, []) == user && Lookup(baseline, []) == baseline && [] <= q;
      var u, b := Child(user, q[0]), Child(baseline, q[0]);
      forall r | r <= q[1..] && r != q[1..]
        ensures var x, y := Lookup(u, r), Lookup(b, r);
                (x.Obj? && y.Obj?) || (x.Arr? && y.Arr? && |x.items| == |y.items|)
      {
        var longer := [q[0]] + r;
        assert longer <= q && longer != q && longer[0] == q[0] && longer[1..] == r;
        assert Lookup(user, longer) == Lookup(u, r) && Lookup(baseline, longer) == Lookup(b, r);
      }
      OpenReported(u, b, q[1..]);
    }
  }

  /** A listed value that differs as a whole, such as a list of another length, is replaced as a whole. */
  lemma PartedIsReplaced(w: Whitelist, user: Json, baseline: Json, q: Path)
    requires ConfigPair(user, baseline) && Update(w, user, baseline).Ok?
    requires KeysOf(q) in Spelled(w) && Open(user, baseline, q) && Parted(Lookup(user, q), Lookup(baseline, q))
    ensures Lookup(Update(w, user, baseline).value, q) == Lookup(user, q)
  {
    UpdateCorrect(w, user, baseline);
    AllowedIff(w, KeysOf(q));
    OpenReported(user, baseline, q);
    AppliedAbove(w, user, baseline, Update(w, user, baseline).value, q, q);
  }
}
