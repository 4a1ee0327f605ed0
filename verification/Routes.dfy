/**
 The URL registry: src/router/url_registry.c (tables, matching rules), url_registry_lookup.c
 (route_match, route_path_known) and url_registry_reverse.c (the Allow list of a 405 answer).
 */
module Routes {
  import opened Common

  const MAX_ROUTES := 32
  const MAX_PREFIX_ROUTES := 16

  /** Stands for a function pointer; `None` is NULL. */
  type Handler = nat

  datatype Route = Route(method_: string, path: string, handler: Option<Handler>)
  datatype PrefixRoute = PrefixRoute(method_: string, prefix: string, minSlashes: int, handler: Option<Handler>)
  datatype Table = Table(routes: seq<Route>, prefixes: seq<PrefixRoute>)

  ghost predicate NoNullHandlers(t: Table) {
    && (forall i :: 0 <= i < |t.routes| ==> t.routes[i].handler.Some?)
    && (forall i :: 0 <= i < |t.prefixes| ==> t.prefixes[i].handler.Some?)
  }

  // ----- registration ---------------------------------------------------------------------------

  class Registry {
    var routes: seq<Route>
    var prefixes: seq<PrefixRoute>

    ghost predicate Valid()
      reads this
    {
      |routes| <= MAX_ROUTES && |prefixes| <= MAX_PREFIX_ROUTES
    }

    constructor ()
      ensures Valid() && routes == [] && prefixes == []
    {
      routes, prefixes := [], [];
    }

    /** A registration that finds the table full is dropped without a word. */
    method RegisterRoute(r: Route)
      requires Valid()
      modifies this`routes
      ensures Valid()
      ensures routes == if |old(routes)| < MAX_ROUTES then old(routes) + [r] else old(routes)
    {
      if |routes| < MAX_ROUTES { routes := routes + [r]; }
    }

    method RegisterPrefixRoute(p: PrefixRoute)
      requires Valid()
      modifies this`prefixes
      ensures Valid()
      ensures prefixes == if |old(prefixes)| < MAX_PREFIX_ROUTES then old(prefixes) + [p] else old(prefixes)
    {
      if |prefixes| >= MAX_PREFIX_ROUTES { return; }
      prefixes := prefixes + [p];
    }
  }

  // ----- matching -------------------------------------------------------------------------------

  function Slashes(s: string): nat {
    if s == "" then 0 else Slashes(s[..|s| - 1]) + (if s[|s| - 1] == '/' then 1 else 0)
  }

  /** The recursive count is the number of positions that hold a slash. */
  lemma {:induction false} SlashesAreCounted(s: string)
    ensures Slashes(s) == |set i | 0 <= i < |s| && s[i] == '/'|
  {
    var all := set i | 0 <= i < |s| && s[i] == '/';
    if s == "" {
      assert all == {};
    } else {
      var n := |s| - 1;
      SlashesAreCounted(s[..n]);
      var before := set i | 0 <= i < n && s[..n][i] == '/';
      assert all == before + (if s[n] == '/' then {n} else {});
    }
  }

  /** A prefix route covers exactly the paths that continue its prefix with slashes enough. */
  lemma CoversExactly(p: PrefixRoute, path: string)
    ensures Covers(p, path) <==>
      exists rest :: path == p.prefix + rest
        && (p.minSlashes <= 0 || |set i | 0 <= i < |rest| && rest[i] == '/'| >= p.minSlashes)
  {
    if p.prefix <= path {
      var rest := path[|p.prefix|..];
      SlashesAreCounted(rest);
      assert path == p.prefix + rest;
    }
  }

  method SlashCount(path: string) returns (n: nat)
    ensures n == Slashes(path)
  {
    n := 0;
    var i := 0;
    while i < |path|
      invariant 0 <= i <= |path|
      invariant n == Slashes(path[..i])
    {
      assert path[..i + 1][..i] == path[..i];
      if path[i] == '/' { n := n + 1; }
      i := i + 1;
    }
    assert path[..i] == path;
  }

  /** The prefix test alone, as the Allow list makes it. */
  predicate Under(p: PrefixRoute, path: string) { p.prefix <= path }

  /** The whole test, with the slashes after the prefix. */
  predicate Covers(p: PrefixRoute, path: string) {
    Under(p, path) && (p.minSlashes <= 0 || Slashes(path[|p.prefix|..]) >= p.minSlashes)
  }

  /** The first exact route for a method and a path, or the length of the table. */
  function FirstExact(rs: seq<Route>, m: string, path: string): (k: nat)
    ensures k <= |rs|
    ensures k < |rs| ==> rs[k].method_ == m && rs[k].path == path
    ensures forall j :: 0 <= j < k ==> !(rs[j].method_ == m && rs[j].path == path)
  {
    if rs == [] then 0
    else
      var k := FirstExact(rs[..|rs| - 1], m, path);
      if k < |rs| - 1 || (rs[k].method_ == m && rs[k].path == path) then k else |rs|
  }

  function FirstCovering(ps: seq<PrefixRoute>, m: string, path: string): (k: nat)
    ensures k <= |ps|
    ensures k < |ps| ==> ps[k].method_ == m && Covers(ps[k], path)
    ensures forall j :: 0 <= j < k ==> !(ps[j].method_ == m && Covers(ps[j], path))
  {
    if ps == [] then 0
    else
      var k := FirstCovering(ps[..|ps| - 1], m, path);
      if k < |ps| - 1 || (ps[k].method_ == m && Covers(ps[k], path)) then k else |ps|
  }

  /** route_match: exact routes first, then prefix routes, each table in registration order. */
  function Match(t: Table, m: string, path: string): Option<Handler> {
    var e, p := FirstExact(t.routes, m, path), FirstCovering(t.prefixes, m, path);
    if e < |t.routes| then t.routes[e].handler
    else if p < |t.prefixes| then t.prefixes[p].handler
    else None
  }

  /** route_path_known: some route speaks for the path, whatever the method. */
  predicate PathKnown(t: Table, path: string) {
    || (exists i :: 0 <= i < |t.routes| && t.routes[i].path == path)
    || (exists i :: 0 <= i < |t.prefixes| && Covers(t.prefixes[i], path))
  }

  /** Some registered route accepts the method on the path. */
  ghost predicate Accepts(t: Table, m: string, path: string) {
    || (exists i :: 0 <= i < |t.routes| && t.routes[i].path == path && t.routes[i].method_ == m)
    || (exists i :: 0 <= i < |t.prefixes| && Covers(t.prefixes[i], path) && t.prefixes[i].method_ == m)
  }

  lemma MatchIffAccepted(t: Table, m: string, path: string)
    requires NoNullHandlers(t)
    ensures Match(t, m, path).Some? <==> Accepts(t, m, path)
  {
  }

  ghost predicate Exact(t: Table, m: string, path: string, i: int) {
    0 <= i < |t.routes| && t.routes[i].method_ == m && t.routes[i].path == path
  }

  ghost predicate Prefixed(t: Table, m: string, path: string, i: int) {
    0 <= i < |t.prefixes| && t.prefixes[i].method_ == m && Covers(t.prefixes[i], path)
  }

  /**
   Which route answers: the handler found is that of route `i` exactly for the accepting route
   that has no accepting route before it, where every exact route comes before every prefix route.
   */
  lemma MatchTakesFirst(t: Table, m: string, path: string, i: int)
    ensures Exact(t, m, path, i) && (forall j :: j < i ==> !Exact(t, m, path, j)) ==>
      Match(t, m, path) == t.routes[i].handler
    ensures Prefixed(t, m, path, i) && (forall j :: j < i ==> !Prefixed(t, m, path, j))
            && (forall j :: !Exact(t, m, path, j)) ==>
      Match(t, m, path) == t.prefixes[i].handler
  {
    var e, p := FirstExact(t.routes, m, path), FirstCovering(t.prefixes, m, path);
    assert e < |t.routes| ==> Exact(t, m, path, e);
    assert p < |t.prefixes| ==> Prefixed(t, m, path, p);
  }

  /** A path is known exactly when some method has a handler on it. */
  lemma KnownIffSomeMethodMatches(t: Table, path: string)
    requires NoNullHandlers(t)
    ensures PathKnown(t, path) <==> exists m :: Match(t, m, path).Some?
  {
    forall m ensures Match(t, m, path).Some? <==> Accepts(t, m, path) { MatchIffAccepted(t, m, path); }
    if PathKnown(t, path) {
      if i :| 0 <= i < |t.routes| && t.routes[i].path == path {
        assert Accepts(t, t.routes[i].method_, path);
      } else {
        var i :| 0 <= i < |t.prefixes| && Covers(t.prefixes[i], path);
        assert Accepts(t, t.prefixes[i].method_, path);
      }
    }
  }

  /** Registering more never takes an exact route's requests away. */
  lemma ExactRouteKeepsItsRequests(t: Table, rs: seq<Route>, ps: seq<PrefixRoute>, m: string, path: string)
    requires FirstExact(t.routes, m, path) < |t.routes|
    ensures Match(Table(t.routes + rs, t.prefixes + ps), m, path) == Match(t, m, path)
  {
    var all := t.routes + rs;
    var a, b := FirstExact(t.routes, m, path), FirstExact(all, m, path);
    assert all[a] == t.routes[a];
    assert b <= a;
    assert all[b] == t.routes[b];
  }

  // ----- what a worker answers ------------------------------------------------------------------

  datatype Answer = Served(handler: Handler) | NotFound | MethodNotAllowed

  function Dispatch(t: Table, m: string, path: string): Answer {
    if Match(t, m, path).Some? then Served(Match(t, m, path).value)
    else if PathKnown(t, path) then MethodNotAllowed
    else NotFound
  }

  /** 404 means no method would do; 405 means another method would, and this one does not. */
  lemma DispatchMeans(t: Table, m: string, path: string)
    requires NoNullHandlers(t)
    ensures Dispatch(t, m, path).Served? <==> Accepts(t, m, path)
    ensures Dispatch(t, m, path) == NotFound <==> forall m' :: !Accepts(t, m', path)
    ensures Dispatch(t, m, path) == MethodNotAllowed
       <==> !Accepts(t, m, path) && exists m' :: m' != m && Accepts(t, m', path)
  {
    forall m' ensures Match(t, m', path).Some? <==> Accepts(t, m', path) { MatchIffAccepted(t, m', path); }
    KnownIffSomeMethodMatches(t, path);
  }

  /** Which handler serves: that of the first accepting route, exact routes before prefix routes. */
  lemma DispatchServes(t: Table, m: string, path: string, h: Handler)
    requires NoNullHandlers(t)
    ensures Dispatch(t, m, path) == Served(h) <==>
      exists i :: (IsFirstExact(t, m, path, i) && t.routes[i].handler == Some(h))
               || (IsFirstPrefixed(t, m, path, i) && t.prefixes[i].handler == Some(h))
  {
    hide Covers;
    var e, p := FirstExact(t.routes, m, path), FirstCovering(t.prefixes, m, path);
    if e < |t.routes| {
      assert IsFirstExact(t, m, path, e);
    } else if p < |t.prefixes| {
      assert IsFirstPrefixed(t, m, path, p);
    }
    forall i | IsFirstExact(t, m, path, i) ensures i == e {}
    forall i | IsFirstPrefixed(t, m, path, i) ensures e == |t.routes| && i == p { assert !Exact(t, m, path, e); }
  }

  ghost predicate IsFirstExact(t: Table, m: string, path: string, i: int) {
    Exact(t, m, path, i) && forall j :: j < i ==> !Exact(t, m, path, j)
  }

  ghost predicate IsFirstPrefixed(t: Table, m: string, path: string, i: int) {
    && Prefixed(t, m, path, i) && (forall j :: j < i ==> !Prefixed(t, m, path, j))
    && forall j :: !Exact(t, m, path, j)
  }

  // ----- the Allow list -------------------------------------------------------------------------

  /** The methods of the exact routes for a path, each once, in registration order. */
  function Listed(rs: seq<Route>, path: string): seq<string> {
    if rs == [] then []
    else
      var before, r := Listed(rs[..|rs| - 1], path), rs[|rs| - 1];
      if r.path == path && r.method_ !in before then before + [r.method_] else before
  }

  lemma {:induction false} ListedExactly(rs: seq<Route>, path: string)
    ensures Distinct(Listed(rs, path))
    ensures forall i :: 0 <= i < |rs| && rs[i].path == path ==> rs[i].method_ in Listed(rs, path)
    ensures forall m :: m in Listed(rs, path) ==> exists i :: 0 <= i < |rs| && rs[i].path == path && rs[i].method_ == m
  {
    if rs != [] {
      var n := |rs| - 1;
      ListedExactly(rs[..n], path);
      assert forall i :: 0 <= i < n ==> rs[..n][i] == rs[i];
      forall m | m in Listed(rs, path)
        ensures exists i :: 0 <= i < |rs| && rs[i].path == path && rs[i].method_ == m
      {
        if m in Listed(rs[..n], path) {
          var i :| 0 <= i < n && rs[..n][i].path == path && rs[..n][i].method_ == m;
          assert rs[i].path == path && rs[i].method_ == m;
        } else {
          assert rs[n].path == path && rs[n].method_ == m;
        }
      }
    }
  }

  lemma {:induction false} ListedGrows(rs: seq<Route>, i: nat, path: string)
    requires i <= |rs|
    ensures Listed(rs[..i], path) <= Listed(rs, path)
    decreases |rs|
  {
    if i < |rs| {
      var n := |rs| - 1;
      ListedGrows(rs[..n], i, path);
      assert rs[..n][..i] == rs[..i];
    } else {
      assert rs[..i] == rs;
    }
  }

  /** The first prefix route whose prefix the path has, whatever its slashes. */
  function FirstUnder(ps: seq<PrefixRoute>, path: string): (k: nat)
    ensures k <= |ps|
    ensures k < |ps| ==> Under(ps[k], path)
    ensures forall j :: 0 <= j < k ==> !Under(ps[j], path)
  {
    if ps == [] then 0
    else
      var k := FirstUnder(ps[..|ps| - 1], path);
      if k < |ps| - 1 || Under(ps[k], path) then k else |ps|
  }

  /** The names an unlimited buffer would receive. */
  function AllowNames(t: Table, path: string): seq<string> {
    var exact, p := Listed(t.routes, path), FirstUnder(t.prefixes, path);
    if exact != [] then exact
    else if p < |t.prefixes| then [t.prefixes[p].method_]
    else []
  }

  function Separator(count: nat): string { if count > 0 then ", " else "" }

  function Join(names: seq<string>): string {
    if names == [] then ""
    else
      var n := |names| - 1;
      Join(names[..n]) + (Separator(n) + names[n])
  }

  lemma {:induction false} JoinGrows(names: seq<string>, k: nat)
    requires k <= |names|
    ensures Join(names[..k]) <= Join(names)
    decreases |names|
  {
    if k < |names| {
      var n := |names| - 1;
      JoinGrows(names[..n], k);
      assert names[..n][..k] == names[..k];
    } else {
      assert names[..k] == names;
    }
  }

  /** How many names fit, with the terminator, in `size` bytes, given that `k` do. */
  function FitFrom(names: seq<string>, k: nat, size: nat): (n: nat)
    requires k <= |names|
    ensures k <= n <= |names|
    ensures n < |names| ==> |Join(names[..n + 1])| >= size
    ensures k < n ==> |Join(names[..n])| < size
    decreases |names| - k
  {
    if k == |names| || |Join(names[..k + 1])| >= size then k else FitFrom(names, k + 1, size)
  }

  function Fit(names: seq<string>, size: nat): nat { FitFrom(names, 0, size) }

  function Truncate(text: string, size: nat): (r: string)
    requires size > 0
    ensures |r| < size
  {
    if |text| < size then text else text[..size - 1]
  }

  /** The buffer holds a C string. */
  ghost predicate Holds(buf: seq<char>, text: string) {
    |text| < |buf| && buf[..|text|] == text && buf[|text|] == '\0'
  }

  /** snprintf of a text at an offset: it writes what fits and reports the full length. */
  method SnPrintf(buf: array<char>, used: nat, text: string) returns (wrote: nat)
    requires used < buf.Length
    modifies buf
    ensures wrote == |text|
    ensures Holds(buf[used..], Truncate(text, buf.Length - used))
    ensures buf[..used] == old(buf[..used])
  {
    var n := if |text| < buf.Length - used then |text| else buf.Length - used - 1;
    for i := 0 to n
      invariant buf[..used] == old(buf[..used])
      invariant buf[used..][..i] == text[..i]
    {
      buf[used + i] := text[i];
      assert buf[used..][..i + 1] == buf[used..][..i] + [text[i]];
    }
    buf[used + n] := '\0';
    assert buf[used..][..n] == text[..n];
    wrote := |text|;
  }

  /** What route_allow_methods returns and leaves in a buffer of `size` bytes. */
  function Allow(t: Table, path: string, size: nat): (nat, string)
    requires size > 0
  {
    var exact, p := Listed(t.routes, path), FirstUnder(t.prefixes, path);
    if exact != [] then (Fit(exact, size), Truncate(Join(exact), size))
    else if p < |t.prefixes| then (1, if size > 3 then Truncate(t.prefixes[p].method_, size) else "")
    else (0, "")
  }

  method MethodSeen(rs: seq<Route>, i: nat, path: string) returns (seen: bool)
    requires i < |rs|
    ensures seen <==> rs[i].method_ in Listed(rs[..i], path)
  {
    ListedExactly(rs[..i], path);
    var j := 0;
    while j < i
      invariant 0 <= j <= i
      invariant forall h :: 0 <= h < j ==> !(rs[..i][h].path == path && rs[..i][h].method_ == rs[i].method_)
    {
      if rs[j].path == path && rs[j].method_ == rs[i].method_ {
        assert rs[..i][j] == rs[j];
        return true;
      }
      j := j + 1;
    }
    return false;
  }

  /** The exact route at `i` brings a new name: where it stands in the full list. */
  lemma NextName(rs: seq<Route>, i: nat, path: string)
    requires i < |rs|
    ensures
      var names, all := Listed(rs[..i], path), Listed(rs, path);
      var m := rs[i].method_;
      if rs[i].path == path && m !in names then
        |names| < |all| && all[..|names|] == names && all[..|names| + 1] == names + [m]
        && Listed(rs[..i + 1], path) == names + [m]
      else Listed(rs[..i + 1], path) == names
  {
    assert rs[..i + 1][..i] == rs[..i];
    ListedGrows(rs, i + 1, path);
  }

  /** A name that does not fit leaves the list cut at the end of the buffer. */
  lemma CutShort(names: seq<string>, k: nat, size: nat, buf: seq<char>)
    requires k < |names| && |buf| == size
    requires
      var done, more := Join(names[..k]), Separator(k) + names[k];
      && |done| < size
      && buf[..|done|] == done
      && |more| >= size - |done|
      && Holds(buf[|done|..], Truncate(more, size - |done|))
    ensures |Join(names[..k + 1])| >= size
    ensures Holds(buf, Truncate(Join(names), size))
  {
    hide Join;
    var done, more := Join(names[..k]), Separator(k) + names[k];
    JoinStep(names, k);
    JoinGrows(names, k + 1);
    CutBuffer(done, more, Join(names), buf);
  }

  lemma JoinStep(names: seq<string>, k: nat)
    requires k < |names|
    ensures Join(names[..k + 1]) == Join(names[..k]) + (Separator(k) + names[k])
  {
    assert names[..k + 1][..k] == names[..k];
  }

  /** Text behind text in a buffer that the second part fills to its end. */
  lemma CutBuffer(done: string, more: string, all: string, buf: seq<char>)
    requires |done| < |buf| <= |done| + |more| && done + more <= all && buf[..|done|] == done
    requires Holds(buf[|done|..], Truncate(more, |buf| - |done|))
    ensures Holds(buf, Truncate(all, |buf|))
  {
    var d, n := |done|, |buf| - 1;
    assert buf[..n] == buf[..d] + buf[d..][..n - d];
    CutPrefix(done, more, all, n);
  }

  /** Text behind text in a buffer with room for both. */
  lemma JoinBuffer(done: string, more: string, buf: seq<char>)
    requires |done| + |more| < |buf| && buf[..|done|] == done && Holds(buf[|done|..], more)
    ensures Holds(buf, done + more)
  {
    var d, n := |done|, |done| + |more|;
    assert buf[..n] == buf[..d] + buf[d..][..n - d];
  }

  lemma CutPrefix(done: string, more: string, all: string, n: nat)
    requires done + more <= all && |done| <= n <= |done| + |more|
    ensures all[..n] == done + more[..n - |done|]
  {
    assert all[..n] == (done + more)[..n];
  }

  /** A name that fits joins the list. */
  lemma FitsOnce(names: seq<string>, k: nat, size: nat, buf: seq<char>)
    requires k < |names| && |buf| == size
    requires
      var done, more := Join(names[..k]), Separator(k) + names[k];
      && |done| < size
      && buf[..|done|] == done
      && |more| < size - |done|
      && Holds(buf[|done|..], Truncate(more, size - |done|))
    ensures |Join(names[..k])| + |Separator(k) + names[k]| == |Join(names[..k + 1])| < size
    ensures Holds(buf, Join(names[..k + 1]))
  {
    hide Join;
    JoinStep(names, k);
    JoinBuffer(Join(names[..k]), Separator(k) + names[k], buf);
  }

  /** Print the name at `k` behind the ones before it. */
  method PrintName(buf: array<char>, used: nat, name: string, k: nat, ghost names: seq<string>) returns (wrote: nat)
    requires k < |names| && names[k] == name
    requires Holds(buf[..], Join(names[..k])) && used == |Join(names[..k])|
    modifies buf
    ensures wrote >= buf.Length - used <==> |Join(names[..k + 1])| >= buf.Length
    ensures wrote >= buf.Length - used ==> Holds(buf[..], Truncate(Join(names), buf.Length))
    ensures wrote < buf.Length - used ==> Holds(buf[..], Join(names[..k + 1])) && used + wrote == |Join(names[..k + 1])|
  {
    wrote := SnPrintf(buf, used, Separator(k) + name);
    assert buf[..][..used] == buf[..used] && buf[..][used..] == buf[used..];
    if wrote >= buf.Length - used {
      CutShort(names, k, buf.Length, buf[..]);
    } else {
      FitsOnce(names, k, buf.Length, buf[..]);
    }
  }

  lemma NoneYet(rs: seq<Route>, path: string, names: seq<string>)
    ensures Listed(rs[..0], path) == names[..0] && Join(names[..0]) == ""
  {
  }

  lemma FitStep(names: seq<string>, k: nat, size: nat)
    requires k <= |names|
    ensures FitFrom(names, k, size)
         == if k == |names| || |Join(names[..k + 1])| >= size then k else FitFrom(names, k + 1, size)
  {
  }

  /** The loop over the exact routes; `cut` when a name did not fit. */
  method ListExact(rs: seq<Route>, path: string, buf: array<char>) returns (count: nat, cut: bool)
    requires buf.Length > 0 && buf[0] == '\0'
    modifies buf
    ensures count == Fit(Listed(rs, path), buf.Length)
    ensures cut ==> Listed(rs, path) != []
    ensures !cut ==> count == |Listed(rs, path)|
    ensures Holds(buf[..], Truncate(Join(Listed(rs, path)), buf.Length))
  {
    hide Listed, Join, FitFrom;
    var used := 0;
    count := 0;
    ghost var all := Listed(rs, path);
    NoneYet(rs, path, all);
    var i := 0;
    while i < |rs|
      invariant 0 <= i <= |rs|
      invariant count <= |all| && Listed(rs[..i], path) == all[..count]
      invariant Fit(all, buf.Length) == FitFrom(all, count, buf.Length)
      invariant used == |Join(all[..count])| && Holds(buf[..], Join(all[..count]))
    {
      var seen := MethodSeen(rs, i, path);
      NextName(rs, i, path);
      FitStep(all, count, buf.Length);
      if rs[i].path == path && !seen {
        var wrote := PrintName(buf, used, rs[i].method_, count, all);
        if wrote >= buf.Length - used { return count, true; }
        used, count := used + wrote, count + 1;
      }
      i := i + 1;
    }
    assert rs[..i] == rs && all[..count] == all;
    FitStep(all, count, buf.Length);
    cut := false;
  }

  /** route_allow_methods. */
  method AllowMethods(t: Table, path: string, buf: array<char>) returns (count: nat)
    modifies buf
    ensures buf.Length == 0 ==> count == 0
    ensures buf.Length > 0 ==> count == Allow(t, path, buf.Length).0
    ensures buf.Length > 0 ==> Holds(buf[..], Allow(t, path, buf.Length).1)
  {
    hide Listed, Join, FitFrom, FirstUnder;
    if buf.Length == 0 { return 0; }
    buf[0] := '\0';
    NoneYet(t.routes, path, []);
    var cut;
    count, cut := ListExact(t.routes, path, buf);
    if cut { return count; }
    var p := 0;
    while p < |t.prefixes| && !Under(t.prefixes[p], path)
      invariant 0 <= p <= |t.prefixes|
      invariant forall j :: 0 <= j < p ==> !Under(t.prefixes[j], path)
    {
      p := p + 1;
    }
    if p < |t.prefixes| && count == 0 {
      if buf.Length > 3 {
        var _ := SnPrintf(buf, 0, t.prefixes[p].method_);
        assert buf[0..] == buf[..];
      }
      count := 1;
    }
  }

  // ----- what the Allow list says -----------------------------------------------------------------

  /** The list is exact: it names just the methods the path accepts. */
  ghost predicate Sound(t: Table, path: string) {
    forall m :: m in AllowNames(t, path) ==> Accepts(t, m, path)
  }

  ghost predicate Complete(t: Table, path: string) {
    forall m :: Accepts(t, m, path) ==> m in AllowNames(t, path)
  }

  /** No name occurs twice, whatever the tables hold. */
  lemma NamesDistinct(t: Table, path: string)
    ensures Distinct(AllowNames(t, path))
  {
    ListedExactly(t.routes, path);
  }

  /** A path under no prefix route: the list is exactly the accepted methods. */
  lemma ExactPathsAllowExactly(t: Table, path: string, m: string)
    requires NoNullHandlers(t) && forall i :: 0 <= i < |t.prefixes| ==> !Under(t.prefixes[i], path)
    ensures m in AllowNames(t, path) <==> Match(t, m, path).Some?
  {
    ListedExactly(t.routes, path);
    MatchIffAccepted(t, m, path);
  }

  /**
   When every name is a method the path accepts: unless there is no exact route and the first
   prefix route the path has fails its slash count, with none of the same method in its place.
   */
  lemma SoundExactly(t: Table, path: string)
    ensures Sound(t, path) <==>
      var p := FirstUnder(t.prefixes, path);
      || HasExact(t, path)
      || p == |t.prefixes|
      || (exists j ::
            0 <= j < |t.prefixes| && t.prefixes[j].method_ == t.prefixes[p].method_ && Covers(t.prefixes[j], path))
  {
    ListedExactly(t.routes, path);
    var exact, p := Listed(t.routes, path), FirstUnder(t.prefixes, path);
    if exact != [] { assert exact[0] in exact; }
    if Listed(t.routes, path) == [] && p < |t.prefixes| {
      assert AllowNames(t, path) == [t.prefixes[p].method_];
      assert t.prefixes[p].method_ in AllowNames(t, path);
    }
  }

  ghost predicate HasExact(t: Table, path: string) {
    exists i :: 0 <= i < |t.routes| && t.routes[i].path == path
  }

  /** The tables repeat the method of prefix route `j` where the list will look for it. */
  ghost predicate Repeated(t: Table, path: string, j: int)
    requires 0 <= j < |t.prefixes| && Covers(t.prefixes[j], path)
  {
    if HasExact(t, path) then
      exists i :: 0 <= i < |t.routes| && t.routes[i].path == path && t.routes[i].method_ == t.prefixes[j].method_
    else
      t.prefixes[j].method_ == t.prefixes[FirstUnder(t.prefixes, path)].method_
  }

  lemma RepeatedIffNamed(t: Table, path: string, j: int)
    requires 0 <= j < |t.prefixes| && Covers(t.prefixes[j], path)
    ensures Repeated(t, path, j) <==> t.prefixes[j].method_ in AllowNames(t, path)
  {
    ListedExactly(t.routes, path);
    var exact := Listed(t.routes, path);
    if exact != [] { assert exact[0] in exact; }
  }

  /**
   When every accepted method is named: where the path has exact routes, each covering prefix
   route has its method among theirs; where it has none, each covering prefix route has the
   method of the first prefix route the path is under.
   */
  lemma CompleteExactly(t: Table, path: string)
    ensures Complete(t, path) <==>
      forall j :: 0 <= j < |t.prefixes| && Covers(t.prefixes[j], path) ==> Repeated(t, path, j)
  {
    ListedExactly(t.routes, path);
    forall j | 0 <= j < |t.prefixes| && Covers(t.prefixes[j], path)
      ensures Accepts(t, t.prefixes[j].method_, path)
      ensures Repeated(t, path, j) <==> t.prefixes[j].method_ in AllowNames(t, path)
    {
      RepeatedIffNamed(t, path, j);
    }
  }

  /** With a single method in the tables, as this server registers them, every known path is answered exactly. */
  lemma SingleMethodAllowsExactly(t: Table, path: string, g: string)
    requires forall i :: 0 <= i < |t.routes| ==> t.routes[i].method_ == g
    requires forall i :: 0 <= i < |t.prefixes| ==> t.prefixes[i].method_ == g
    requires PathKnown(t, path)
    ensures AllowNames(t, path) == [g] && Sound(t, path) && Complete(t, path)
  {
    SingleName(t, path, g);
    hide Listed, FirstUnder, AllowNames, Covers;
    assert g in AllowNames(t, path);
  }

  lemma SingleName(t: Table, path: string, g: string)
    requires forall i :: 0 <= i < |t.routes| ==> t.routes[i].method_ == g
    requires forall i :: 0 <= i < |t.prefixes| ==> t.prefixes[i].method_ == g
    requires PathKnown(t, path)
    ensures AllowNames(t, path) == [g]
  {
    hide Listed, FirstUnder, Slashes;
    ListedExactly(t.routes, path);
    var exact := Listed(t.routes, path);
    assert |exact| > 1 ==> exact[0] != exact[1];
    forall i | 0 <= i < |exact| ensures exact[i] == g { assert exact[i] in exact; }
  }

  /** A 405 that names the refused method and not the accepted one. */
  lemma AllowCanMislead()
    ensures
      var t := Table([], [PrefixRoute("GET", "/man/", 2, Some(1)), PrefixRoute("POST", "/man/", 0, Some(2))]);
      && Dispatch(t, "GET", "/man/x") == MethodNotAllowed
      && Dispatch(t, "POST", "/man/x") == Served(2)
      && AllowNames(t, "/man/x") == ["GET"]
      && !Sound(t, "/man/x") && !Complete(t, "/man/x")
  {
    hide FirstExact, FirstCovering, FirstUnder;
    var get, post := PrefixRoute("GET", "/man/", 2, Some(1)), PrefixRoute("POST", "/man/", 0, Some(2));
    var t, path := Table([], [get, post]), "/man/x";
    assert path[..5] == "/man/" && path[5..] == "x" && "x"[..0] == "";
    assert Slashes("") == 0 && Slashes("x") == 0;
    assert !Covers(get, path) && Covers(post, path) && Under(get, path);
    assert t.prefixes[0] == get && t.prefixes[1] == post;
    assert Accepts(t, "POST", path) && !Accepts(t, "GET", path);
    assert FirstUnder(t.prefixes, path) == 0;
    assert "GET" in AllowNames(t, path);
    assert FirstCovering(t.prefixes, "GET", path) == 2;
    assert FirstCovering(t.prefixes, "POST", path) == 1;
  }

  // ----- the buffer ---------------------------------------------------------------------------------

  lemma {:induction false} FirstFits(names: seq<string>, size: nat)
    requires names != []
    ensures Fit(names, size) >= 1 <==> |names[0]| < size
  {
    assert names[..1] == [names[0]];
    assert Join([names[0]]) == names[0];
    assert names[..0 + 1] == names[..1];
  }

  /** A known path always yields a name, given room for the first one. */
  lemma KnownPathIsAllowedSomething(t: Table, path: string, size: nat)
    requires PathKnown(t, path) && size > 0
    ensures AllowNames(t, path) != []
    ensures Allow(t, path, size).0 >= 1 <==> Listed(t.routes, path) == [] || |Listed(t.routes, path)[0]| < size
  {
    ListedExactly(t.routes, path);
    if Listed(t.routes, path) != [] { FirstFits(Listed(t.routes, path), size); }
  }

  lemma {:induction false} AllFit(names: seq<string>, k: nat, size: nat)
    requires k <= |names| && |Join(names)| < size
    ensures FitFrom(names, k, size) == |names|
    decreases |names| - k
  {
    if k < |names| {
      JoinGrows(names, k + 1);
      AllFit(names, k + 1, size);
    }
  }

  /** With room for the list, the whole of it is written and counted. */
  lemma RoomyBufferHoldsAll(t: Table, path: string, size: nat)
    requires size > 3 && |Join(AllowNames(t, path))| < size
    ensures Allow(t, path, size) == (|AllowNames(t, path)|, Join(AllowNames(t, path)))
  {
    var names := AllowNames(t, path);
    AllFit(names, 0, size);
    if |names| == 1 { assert Join(names) == names[0]; }
  }

  /** A recipient's reading of the header value: names between ", " separators. */
  function Split(text: string): seq<string>
    decreases |text|
  {
    var k := Comma(text);
    if k + 1 < |text| then Split(text[..k]) + [text[k + 2..]] else [text]
  }

  /** The last comma, or the length. */
  function Comma(text: string): (k: nat)
    ensures k <= |text|
    ensures k < |text| ==> text[k] == ',' && forall j :: k < j < |text| ==> text[j] != ','
    ensures k == |text| ==> ',' !in text
  {
    if text == "" then 0
    else if text[|text| - 1] == ',' then |text| - 1
    else
      var k := Comma(text[..|text| - 1]);
      if k < |text| - 1 then k else |text|
  }

  lemma LastComma(before: string, last: string, text: string)
    requires text == before + (", " + last) && ',' !in last
    ensures Comma(text) == |before|
    ensures text[..|before|] == before && text[|before| + 2..] == last
  {
    assert text[|before|] == ',';
    assert text[|before| + 1] == ' ';
    forall j | |before| + 2 <= j < |text| ensures text[j] != ',' { assert text[j] == last[j - |before| - 2]; }
  }

  /** Round trip: names without commas are read back as they were listed. */
  lemma {:induction false} SplitJoin(names: seq<string>)
    requires names != [] && forall i :: 0 <= i < |names| ==> ',' !in names[i]
    ensures Split(Join(names)) == names
  {
    hide Comma;
    var n := |names| - 1;
    var before, text := Join(names[..n]), Join(names);
    if n > 0 {
      SplitJoin(names[..n]);
      LastComma(before, names[n], text);
      assert names[..n] + [names[n]] == names;
    } else {
      assert text == names[0];
      assert names == [names[0]];
    }
  }
}
