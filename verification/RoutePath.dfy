/** Canonical route prefixes, and what it means for a prefix to match a request path. */
module RoutePath {
  import opened Wrappers

  const ModelPrefix := "/models/"
  const Reserved := ["/healthz", "/readyz", "/metrics"]

  predicate Matches(path: string, prefix: string) {
    path == prefix || prefix + "/" <= path
  }

  /** The path segments of a text; a trailing slash leaves an empty last one. */
  function Segments(s: string): (r: seq<string>)
    ensures r != []
  {
    if s == "" then [""]
    else
      var rest := Segments(s[1..]);
      if s[0] == '/' then [""] + rest else [[s[0]] + rest[0]] + rest[1..]
  }

  /** Rooted, with no empty, `.` or `..` segment: the paths that cleaning leaves alone. */
  predicate Canonical(path: string) {
    path != "" && path[0] == '/' && forall s <- Segments(path[1..]) :: s != "" && s != "." && s != ".."
  }

  predicate Forbidden(c: char) {
    c == '?' || c == '#' || c == '\\' || c == '%' || c < ' ' || c == '\U{7f}'
  }

  function WithoutTrailingSlash(s: string): string {
    if s != "" && s[|s| - 1] == '/' then s[..|s| - 1] else s
  }

  function Normalize(prefix: string): (r: Option<string>) {
    if prefix == "" || prefix[0] != '/' || exists c <- prefix :: Forbidden(c) then None
    else
      var normalized := WithoutTrailingSlash(prefix);
      if !Canonical(normalized) then None
      else if exists e <- Reserved :: Matches(normalized, e) then None
      else Some(normalized)
  }

  lemma {:induction false} TrailingSlashSegment(s: string)
    requires s != "" && s[|s| - 1] == '/'
    ensures "" in Segments(s)[1..]
  {
    if |s| > 1 {
      TrailingSlashSegment(s[1..]);
    }
  }

  /** A canonical prefix is its own normal form, lies outside the gateway's own endpoints, and its
      parent directory form names the same route. */
  lemma NormalFormsAreFixed(prefix: string)
    requires Normalize(prefix).Some?
    ensures var n := Normalize(prefix).value;
      Normalize(n) == Some(n) && Normalize(n + "/") == Some(n) && forall e <- Reserved :: !Matches(n, e)
  {
    var n := Normalize(prefix).value;
    if n[|n| - 1] == '/' {
      assert "" in Segments(n[1..]) by {
        if |n| > 1 { TrailingSlashSegment(n[1..]); } else { assert n[1..] == ""; }
      }
      assert false;
    }
    assert forall c <- n :: c in prefix;
    assert WithoutTrailingSlash(n + "/") == n;
    assert forall c <- n + "/" :: c in n || c == '/';
    assert !exists c <- n + "/" :: Forbidden(c);
  }

  /** The text whose segments these are. */
  function Joined(segments: seq<string>): string
    requires segments != []
  {
    if |segments| == 1 then segments[0] else segments[0] + "/" + Joined(segments[1..])
  }

  /** Segments hold no slash and make up the text again. */
  lemma {:induction false} SegmentsJoin(s: string)
    ensures Joined(Segments(s)) == s && forall x <- Segments(s) :: '/' !in x
  {
    if s != "" {
      SegmentsJoin(s[1..]);
      var rest := Segments(s[1..]);
      assert s == [s[0]] + s[1..];
      if s[0] == '/' {
        assert ([""] + rest)[1..] == rest;
        assert Joined([""] + rest) == "" + "/" + Joined(rest);
      } else {
        var segments := [[s[0]] + rest[0]] + rest[1..];
        assert segments[1..] == rest[1..];
        assert Joined(segments) == [s[0]] + Joined(rest);
      }
    }
  }

  /** A prefix matches on whole segments: its own are the first ones of the path. */
  lemma {:induction false} MatchesExactlyWhen(path: string, prefix: string)
    ensures Matches(path, prefix) <==> Segments(prefix) <= Segments(path)
  {
    if prefix == "" {
      if path != "" && path[0] == '/' {
        assert path == "/" + path[1..];
      }
    } else if path != "" {
      MatchesExactlyWhen(path[1..], prefix[1..]);
      SameHead(path, prefix);
      var a, b := Segments(path[1..]), Segments(prefix[1..]);
      if path[0] == prefix[0] == '/' {
        assert Segments(path)[1..] == a && Segments(prefix)[1..] == b;
      } else if path[0] == prefix[0] {
        assert Segments(path)[1..] == a[1..] && Segments(prefix)[1..] == b[1..];
        assert Segments(path)[0][1..] == a[0] && Segments(prefix)[0][1..] == b[0];
        assert a == [a[0]] + a[1..] && b == [b[0]] + b[1..];
      }
    }
  }

  lemma SameHead(path: string, prefix: string)
    requires path != "" && prefix != ""
    ensures Matches(path, prefix) <==> path[0] == prefix[0] && Matches(path[1..], prefix[1..])
  {
    assert path == [path[0]] + path[1..] && prefix == [prefix[0]] + prefix[1..];
    assert (prefix + "/")[1..] == prefix[1..] + "/";
    assert prefix + "/" <= path <==> prefix[0] == path[0] && prefix[1..] + "/" <= path[1..];
  }

  /** Rooted, with no empty, `.` or `..` segment and no query, fragment, backslash, escape or control
      character, and none of the gateway's own endpoints nor below one. */
  ghost predicate Acceptable(n: string) {
    && "/" <= n
    && (forall s <- Segments(n)[1..] :: s !in ["", ".", ".."])
    && (forall c <- n :: c !in "?#\\%" && ' ' <= c && c != '\U{7f}')
    && n !in ["/healthz", "/readyz", "/metrics"]
    && !("/healthz/" <= n) && !("/readyz/" <= n) && !("/metrics/" <= n)
  }

  lemma AcceptableExactlyWhen(n: string)
    ensures Acceptable(n) <==>
      && n != "" && n[0] == '/' && Canonical(n)
      && !(exists c <- n :: Forbidden(c)) && !(exists e <- Reserved :: Matches(n, e))
    ensures Acceptable(n) ==> n[|n| - 1] != '/'
  {
    NotReserved(n);
    if "/" <= n {
      assert Segments(n)[1..] == Segments(n[1..]);
      if n[|n| - 1] == '/' {
        assert "" in Segments(n[1..]) by {
          if |n| > 1 { TrailingSlashSegment(n[1..]); } else { assert n[1..] == ""; }
        }
      }
    }
  }

  lemma NotReserved(n: string)
    ensures (exists e <- Reserved :: Matches(n, e)) <==>
      n in ["/healthz", "/readyz", "/metrics"] || "/healthz/" <= n || "/readyz/" <= n || "/metrics/" <= n
  {
    assert "/healthz" + "/" == "/healthz/" && "/readyz" + "/" == "/readyz/" && "/metrics" + "/" == "/metrics/";
    if Matches(n, "/healthz") || Matches(n, "/readyz") || Matches(n, "/metrics") {
      assert Reserved[0] == "/healthz" && Reserved[1] == "/readyz" && Reserved[2] == "/metrics";
    }
  }

  /** A prefix is accepted exactly when it is acceptable but for one trailing slash, which is dropped. */
  lemma NormalizeExactlyWhen(prefix: string, n: string)
    ensures Normalize(prefix) == Some(n) <==> (prefix == n || prefix == n + "/") && Acceptable(n)
  {
    hide Acceptable, Normalize;
    NormalizeDropsSlash(prefix);
    AcceptableExactlyWhen(n);
    assert WithoutTrailingSlash(n + "/") == n;
  }

  lemma NormalizeDropsSlash(prefix: string)
    ensures var w := WithoutTrailingSlash(prefix);
      && (prefix == w || prefix == w + "/")
      && Normalize(prefix) == if Acceptable(w) then Some(w) else None
  {
    hide Acceptable, Forbidden, Matches, Segments;
    var w := WithoutTrailingSlash(prefix);
    AcceptableExactlyWhen(w);
    SlashIsAllowed(w);
    assert prefix == w || prefix == w + "/";
    assert Acceptable(w) ==> prefix[0] == w[0] == '/';
  }

  lemma SlashIsAllowed(s: string)
    ensures (exists c <- s + "/" :: Forbidden(c)) <==> exists c <- s :: Forbidden(c)
  {
    if c :| c in s && Forbidden(c) {
      assert c in s + "/";
    }
  }

  /** Of two prefixes of one path, equally long ones are equal. */
  lemma MatchedPrefixes(path: string, p: string, q: string)
    requires Matches(path, p) && Matches(path, q)
    ensures p <= path && q <= path
    ensures |p| == |q| ==> p == q
  {
    assert p <= path by { assert p <= p + "/"; }
    assert q <= path by { assert q <= q + "/"; }
    assert p == path[..|p|] && q == path[..|q|];
  }
}
