/**
 * The API gateway: a fixed table of three proxy mounts registered at
 * startup, and the choice of which backend, if any, a request is forwarded
 * to. The table is a constant, so it cannot change after startup.
 */
module Gateway {
  import opened Wrappers

  /** One `app.use(prefix, createProxyMiddleware({ target, changeOrigin }))`. */
  datatype Route = Route(prefix: string, target: string, changeOrigin: bool)

  /** The mounts in registration order (api-gateway lines 10-12). */
  const Routes: seq<Route> := [
    Route("/users", "http://user-service:3001", true),
    Route("/orders", "http://order-service:3002", true),
    Route("/products", "http://product-service:3003", true)
  ]

  /** The table holds three entries, with three distinct backends, each rewriting the origin. */
  lemma RouteTableShape()
    ensures |Routes| == 3
    ensures Routes[0].prefix == "/users" && Routes[0].target == "http://user-service:3001"
    ensures Routes[1].prefix == "/orders" && Routes[1].target == "http://order-service:3002"
    ensures Routes[2].prefix == "/products" && Routes[2].target == "http://product-service:3003"
    ensures forall k :: 0 <= k < |Routes| ==> Routes[k].changeOrigin
    ensures forall i, j :: 0 <= i < j < |Routes| ==> Routes[i].target != Routes[j].target
  {
  }

  // ---------------------------------------------------------------------------
  // Mount matching
  // ---------------------------------------------------------------------------

  /** ASCII lower-casing of one character. */
  function LowerChar(c: char): char {
    if 'A' <= c <= 'Z' then (c as int + 32) as char else c
  }

  /** ASCII lower-casing of a path, character by character. */
  function Lower(s: string): (r: string)
    ensures |r| == |s|
    ensures forall i :: 0 <= i < |s| ==> r[i] == LowerChar(s[i])
  {
    if s == [] then [] else [LowerChar(s[0])] + Lower(s[1..])
  }

  /** `s` is the whole prefix, or continues it at a `/` segment boundary. */
  predicate Covers(prefix: string, s: string) {
    s == prefix || prefix + "/" <= s
  }

  /**
   * How Express mounts `app.use(prefix, …)` with its default options
   * (case-insensitive, non-strict, not anchored at the end): the path, with
   * ASCII letters lower-cased, is the prefix itself or starts with the prefix
   * followed by `/`. This is an assumption about the framework, whose source
   * is not part of this model.
   */
  predicate Mounts(prefix: string, path: string)
    ensures Mounts(prefix, path) <==>
              |path| >= |prefix|
              && (forall i :: 0 <= i < |prefix| ==> LowerChar(path[i]) == prefix[i])
              && (|path| == |prefix| || LowerChar(path[|prefix|]) == '/')
  {
    Covers(prefix, Lower(path))
  }

  /** Two prefixes some path is covered by both of: equal, or one a whole segment-prefix of the other. */
  predicate Nested(p: string, q: string) {
    p == q || p + "/" <= q || q + "/" <= p
  }

  /** A path covered by two prefixes shows that they are nested. */
  lemma {:induction false} SharedPathNested(p: string, q: string, s: string)
    requires Covers(p, s) && Covers(q, s)
    ensures Nested(p, q)
  {
    assert p == s[..|p|] && q == s[..|q|];
    if |p| < |q| {
      assert s != p;
      assert (p + "/") == s[..|p| + 1] == q[..|p| + 1];
    } else if |q| < |p| {
      assert s != q;
      assert (q + "/") == s[..|q| + 1] == p[..|q| + 1];
    }
  }

  /** Nested prefixes share a path: the longer of the two. */
  lemma NestedShared(p: string, q: string)
    requires Nested(p, q)
    ensures exists s :: Covers(p, s) && Covers(q, s)
  {
    if p + "/" <= q {
      assert Covers(p, q) && Covers(q, q);
    } else {
      assert Covers(p, p) && Covers(q, p);
    }
  }

  /** No two prefixes of the table are nested. */
  lemma TableNotNested()
    ensures forall i, j :: 0 <= i < j < |Routes| ==> !Nested(Routes[i].prefix, Routes[j].prefix)
  {
    forall i, j | 0 <= i < j < |Routes|
      ensures !Nested(Routes[i].prefix, Routes[j].prefix)
    {
      var p, q := Routes[i].prefix, Routes[j].prefix;
      assert p[1] != q[1];
      assert (p + "/")[1] == p[1] && (q + "/")[1] == q[1];
    }
  }

  /** At most one mount of the table applies to any path. */
  lemma AtMostOneRoute(path: string, i: int, j: int)
    requires 0 <= i < |Routes| && 0 <= j < |Routes|
    requires Mounts(Routes[i].prefix, path) && Mounts(Routes[j].prefix, path)
    ensures i == j
  {
    SharedPathNested(Routes[i].prefix, Routes[j].prefix, Lower(path));
    TableNotNested();
  }

  // ---------------------------------------------------------------------------
  // Route selection
  // ---------------------------------------------------------------------------

  /** Express tries the mounts in registration order; the first that applies handles the request. */
  function FirstMatch(table: seq<Route>, path: string): (r: Option<Route>)
    ensures r.None? <==> forall k :: 0 <= k < |table| ==> !Mounts(table[k].prefix, path)
    ensures r.Some? ==> r.value in table && Mounts(r.value.prefix, path)
    ensures r.Some? ==> exists k :: 0 <= k < |table| && table[k] == r.value
                                    && forall j :: 0 <= j < k ==> !Mounts(table[j].prefix, path)
  {
    if table == [] then None
    else if Mounts(table[0].prefix, path) then Some(table[0])
    else
      var r := FirstMatch(table[1..], path);
      assert r.Some? ==> exists k :: 0 <= k < |table| && table[k] == r.value
                                     && forall j :: 0 <= j < k ==> !Mounts(table[j].prefix, path) by {
        if r.Some? {
          var k :| 0 <= k < |table| - 1 && table[1..][k] == r.value
                   && forall j :: 0 <= j < k ==> !Mounts(table[1..][j].prefix, path);
          forall j | 0 <= j < k + 1 ensures !Mounts(table[j].prefix, path) {
            if j > 0 { assert table[j] == table[1..][j - 1]; }
          }
          assert table[k + 1] == r.value;
        }
      }
      assert r.None? ==> forall k :: 0 <= k < |table| ==> !Mounts(table[k].prefix, path) by {
        if r.None? {
          forall k | 0 <= k < |table| ensures !Mounts(table[k].prefix, path) {
            if k > 0 { assert table[k] == table[1..][k - 1]; }
          }
        }
      }
      r
  }

  /** The route the gateway's table selects for a path. */
  function Lookup(path: string): (r: Option<Route>)
    ensures r.None? <==> forall k :: 0 <= k < |Routes| ==> !Mounts(Routes[k].prefix, path)
    ensures r.Some? ==> r.value in Routes && Mounts(r.value.prefix, path) && r.value.changeOrigin
  {
    FirstMatch(Routes, path)
  }

  /** A path a mount applies to selects that mount and no other. */
  lemma LookupSelects(path: string, k: int)
    requires 0 <= k < |Routes| && Mounts(Routes[k].prefix, path)
    ensures Lookup(path) == Some(Routes[k])
  {
    var r := Lookup(path);
    var j :| 0 <= j < |Routes| && Routes[j] == r.value;
    AtMostOneRoute(path, j, k);
  }

  /** Lower-casing leaves a string without upper-case ASCII letters unchanged. */
  lemma LowerIdentity(s: string)
    requires forall i :: 0 <= i < |s| ==> !('A' <= s[i] <= 'Z')
    ensures Lower(s) == s
  {
    assert forall i :: 0 <= i < |s| ==> Lower(s)[i] == s[i];
  }

  /** Every prefix of the table is already lower-case. */
  lemma PrefixesLowerCase(k: int)
    requires 0 <= k < |Routes|
    ensures Lower(Routes[k].prefix) == Routes[k].prefix
  {
    LowerIdentity(Routes[k].prefix);
  }

  /** A path under a mount, such as `/products/abc`, selects that mount's backend. */
  lemma UnderMount(k: int, rest: string)
    requires 0 <= k < |Routes|
    ensures Lookup(Routes[k].prefix + "/" + rest) == Some(Routes[k])
  {
    var p := Routes[k].prefix;
    var path := p + "/" + rest;
    PrefixesLowerCase(k);
    assert Lower(path)[..|p| + 1] == p + "/" by {
      forall i | 0 <= i < |p| + 1 ensures Lower(path)[i] == (p + "/")[i] {
        if i < |p| {
          assert path[i] == p[i] && Lower(p)[i] == LowerChar(p[i]);
        } else {
          assert path[i] == '/';
        }
      }
    }
    LookupSelects(path, k);
  }

  /** The example path `/products/abc` goes to the product service. */
  lemma ProductsSubpath()
    ensures Lookup("/products/abc") == Some(Route("/products", "http://product-service:3003", true))
  {
    UnderMount(2, "abc");
    assert Routes[2].prefix + "/" + "abc" == "/products/abc";
  }

  // ---------------------------------------------------------------------------
  // Dispatch
  // ---------------------------------------------------------------------------

  /**
   * What the gateway does with a request: answer a CORS preflight itself
   * (204), forward to a backend, or fall through to the framework's final
   * handler (404) without forwarding anywhere.
   */
  datatype Outcome = Preflight | Forward(target: string) | NoRoute

  /**
   * `app.use(cors())` (line 7) runs first: with its default options it ends
   * every `OPTIONS` request with 204. Any other request goes to the first
   * mount that applies; when none does, nothing is forwarded.
   */
  function Dispatch(verb: string, path: string): (o: Outcome)
    ensures verb == "OPTIONS" ==> o == Preflight
    ensures o.Forward? ==> exists k :: 0 <= k < |Routes| && Mounts(Routes[k].prefix, path)
                                       && o.target == Routes[k].target
    ensures o == NoRoute <==> verb != "OPTIONS" && forall k :: 0 <= k < |Routes| ==> !Mounts(Routes[k].prefix, path)
  {
    if verb == "OPTIONS" then Preflight
    else match Lookup(path)
      case Some(r) =>
        assert exists k :: 0 <= k < |Routes| && Routes[k] == r;
        Forward(r.target)
      case None => NoRoute
  }

  /** A request that is not a preflight and that a mount applies to is forwarded to that mount's backend only. */
  lemma DispatchForwardsToMount(verb: string, path: string, k: int)
    requires verb != "OPTIONS"
    requires 0 <= k < |Routes| && Mounts(Routes[k].prefix, path)
    ensures Dispatch(verb, path) == Forward(Routes[k].target)
  {
    LookupSelects(path, k);
  }

  /**
   * A mount applies only at a segment boundary: a longer path whose character
   * right after the prefix is not `/` (such as `/usersettings`) is not under it.
   */
  lemma SegmentBoundary(k: int, path: string)
    requires 0 <= k < |Routes|
    requires |path| > |Routes[k].prefix| && path[|Routes[k].prefix|] != '/'
    ensures !Mounts(Routes[k].prefix, path)
  {
  }
}
