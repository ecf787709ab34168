/** Turning an OpenAPI path into the base name of the file an endpoint is written to. */
module OutputManager {
  import opened Text

  /**
    `re.sub(r"\{([^}]+)\}", r"-\1", s)`: scanning from the left, a `{` followed by a
    non-empty run of characters other than `}` and then `}` becomes `-` and that run.
  */
  function ReplaceParams(s: string): string
    decreases |s|
  {
    if s == [] then []
    else
      var close := FirstIndex(s[1..], '}');
      if s[0] == '{' && 0 < close < |s| - 1 then "-" + s[1..close + 1] + ReplaceParams(s[close + 2..])
      else [s[0]] + ReplaceParams(s[1..])
  }

  /** No two hyphens in a row. */
  predicate NoDoubleHyphen(s: string)
  {
    forall i :: 0 <= i < |s| - 1 ==> !(s[i] == '-' && s[i + 1] == '-')
  }

  /** `re.sub(r"-+", "-", s)`: each run of hyphens becomes one. */
  function CollapseHyphens(s: string): string
    decreases |s|
  {
    if |s| <= 1 then s
    else if s[0] == '-' && s[1] == '-' then CollapseHyphens(s[1..])
    else [s[0]] + CollapseHyphens(s[1..])
  }

  /** Collapsing leaves no hyphen run, keeps the first character and adds no new character. */
  lemma {:induction false} CollapseHyphensSpec(s: string)
    ensures var r := CollapseHyphens(s);
      NoDoubleHyphen(r) && (s != [] ==> r != [] && r[0] == s[0]) && forall i :: 0 <= i < |r| ==> r[i] in s
    decreases |s|
  {
    if |s| > 1 {
      CollapseHyphensSpec(s[1..]);
      var rest := CollapseHyphens(s[1..]);
      assert forall i :: 0 <= i < |rest| ==> rest[i] in s by {
        assert forall c :: c in s[1..] ==> c in s;
      }
      if !(s[0] == '-' && s[1] == '-') {
        var r := [s[0]] + rest;
        assert forall i :: 1 <= i < |r| ==> r[i] == rest[i - 1];
      }
    }
  }

  /** A text without hyphen runs is left as it is. */
  lemma {:induction false} CollapseHyphensFree(s: string)
    requires NoDoubleHyphen(s)
    ensures CollapseHyphens(s) == s
    decreases |s|
  {
    if |s| > 1 {
      CollapseHyphensFree(s[1..]);
      assert [s[0]] + s[1..] == s;
    }
  }

  /** Shortening one hyphen run by a hyphen does not change the collapsed text. */
  lemma {:induction false} CollapseHyphensShorten(a: string, b: string)
    ensures CollapseHyphens(a + "--" + b) == CollapseHyphens(a + "-" + b)
    decreases |a|
  {
    var s, t := a + "--" + b, a + "-" + b;
    if a == [] {
      assert s[1..] == t;
    } else {
      assert s[1..] == a[1..] + "--" + b && t[1..] == a[1..] + "-" + b;
      CollapseHyphensShorten(a[1..], b);
      assert s[0] == t[0] && s[1] == t[1];
    }
  }

  /** A leading `/`, if there is one, is dropped. */
  function Unrooted(path: string): string
  {
    if StartsWith(path, "/") then path[1..] else path
  }

  /** Every `/` and every `.` becomes a hyphen, so neither is left. */
  function Dashed(s: string): (r: string)
    ensures '/' !in r && '.' !in r
  {
    ReplaceChar(ReplaceChar(s, '/', '-'), '.', '-')
  }

  /** Hyphen runs collapse, hyphens at both ends go, and ASCII letters are lower-cased. */
  function Tidied(s: string): string
  {
    Lower(Strip(CollapseHyphens(s), '-'))
  }

  /**
    `sanitize_path`: drop one leading `/`, splice `{name}` parameters, turn `/` and `.` into
    hyphens, collapse hyphen runs, strip hyphens at both ends, lower-case, and fall back to
    `"root"` when nothing is left.
  */
  function SanitizePath(path: string): string
  {
    var cleaned := Tidied(Dashed(ReplaceParams(Unrooted(path))));
    if cleaned == [] then "root" else cleaned
  }

  /** What a file name built from a path is free of. */
  predicate SafeName(r: string)
  {
    r != []
    && '/' !in r && '.' !in r
    && NoDoubleHyphen(r) && r[0] != '-' && r[|r| - 1] != '-'
    && forall i :: 0 <= i < |r| ==> !IsAsciiUpper(r[i])
  }

  /** Stripping hyphens from a name free of hyphen runs, `/` and `.` leaves no hyphen at either end. */
  lemma {:induction false} StripKeeps(s: string)
    requires NoDoubleHyphen(s) && '/' !in s && '.' !in s
    ensures var t := Strip(s, '-');
      NoDoubleHyphen(t) && '/' !in t && '.' !in t && (t != [] ==> t[0] != '-' && t[|t| - 1] != '-')
  {
    var left := TrimLeft(s, '-');
    var t := TrimRight(left, '-');
    SliceKeeps(s, |s| - |left|, |s|);
    SliceKeeps(left, 0, |t|);
    if t != [] {
      assert t[0] == left[0];
    }
  }

  /** A slice of a name free of hyphen runs, `/` and `.` is free of them too. */
  lemma SliceKeeps(s: string, lo: nat, hi: nat)
    requires lo <= hi <= |s| && NoDoubleHyphen(s) && '/' !in s && '.' !in s
    ensures var t := s[lo..hi]; NoDoubleHyphen(t) && '/' !in t && '.' !in t
  {
    var t := s[lo..hi];
    forall i | 0 <= i < |t| - 1 ensures !(t[i] == '-' && t[i + 1] == '-') {
      assert t[i] == s[lo + i] && t[i + 1] == s[lo + i + 1];
    }
    forall i | 0 <= i < |t| ensures t[i] != '/' && t[i] != '.' {
      assert t[i] == s[lo + i] && s[lo + i] in s;
    }
  }

  /** ASCII lower-casing keeps hyphens where they are and leaves no upper-case letter. */
  lemma {:induction false} LowerKeeps(t: string)
    requires NoDoubleHyphen(t) && '/' !in t && '.' !in t && (t != [] ==> t[0] != '-' && t[|t| - 1] != '-')
    ensures t != [] ==> SafeName(Lower(t))
  {
    var r := Lower(t);
    forall i | 0 <= i < |r| ensures (r[i] == '-' <==> t[i] == '-') && r[i] != '/' && r[i] != '.' {
      assert t[i] in t;
    }
  }

  /** Tidying a text without `/` and `.` gives either nothing or a safe name. */
  lemma {:induction false} TidiedSafe(d: string)
    requires '/' !in d && '.' !in d
    ensures Tidied(d) != [] ==> SafeName(Tidied(d))
  {
    var collapsed := CollapseHyphens(d);
    CollapseHyphensSpec(d);
    assert '/' !in collapsed && '.' !in collapsed;
    StripKeeps(collapsed);
    LowerKeeps(Strip(collapsed, '-'));
  }

  /**
    Every sanitized name is non-empty, holds no `/` and no `.`, has no hyphen run, neither
    starts nor ends with a hyphen, and has no upper-case ASCII letter; the bare root path,
    which leaves nothing after the steps, falls back to `"root"`.
  */
  lemma {:induction false} SanitizedIsSafe(path: string)
    ensures SafeName(SanitizePath(path))
    ensures path == "/" ==> SanitizePath(path) == "root"
  {
    assert SafeName("root") by {
      assert "root" == ['r', 'o', 'o', 't'];
    }
    if path == "/" {
      assert Tidied(Dashed(ReplaceParams(Unrooted(path)))) == "" by {
        assert Unrooted(path) == "";
        assert ReplaceParams("") == "" && Dashed("") == "";
        assert Tidied("") == "";
      }
    } else {
      TidiedSafe(Dashed(ReplaceParams(Unrooted(path))));
    }
  }

  /** A path free of braces passes the parameter step unchanged. */
  lemma {:induction false} ReplaceParamsFree(s: string)
    requires '{' !in s
    ensures ReplaceParams(s) == s
  {
    if s != [] {
      assert '{' !in s[1..];
      ReplaceParamsFree(s[1..]);
    }
  }

  /**
    A leading `{name}` with a non-empty name free of `}` becomes `-name`, and the scan goes
    on after the closing brace.
  */
  lemma {:induction false} ReplaceParamsSplice(name: string, rest: string)
    requires name != [] && '}' !in name
    ensures ReplaceParams("{" + name + "}" + rest) == "-" + name + ReplaceParams(rest)
  {
    var s := "{" + name + "}" + rest;
    assert s[1..] == name + "}" + rest;
    FirstIndexAfter(name, rest);
    assert s[1..|name| + 1] == name;
    assert s[|name| + 2..] == rest;
  }

  lemma {:induction false} FirstIndexAfter(name: string, rest: string)
    requires '}' !in name
    ensures FirstIndex(name + "}" + rest, '}') == |name|
  {
    if name != [] {
      assert (name + "}" + rest)[1..] == name[1..] + "}" + rest;
      assert '}' !in name[1..];
      FirstIndexAfter(name[1..], rest);
    }
  }

  /** Text before the first `{` is copied as it is. */
  lemma {:induction false} ReplaceParamsPrefix(a: string, b: string)
    requires '{' !in a
    ensures ReplaceParams(a + b) == a + ReplaceParams(b)
  {
    if a != [] {
      var s := a + b;
      assert s[0] == a[0] && a[0] != '{';
      assert s[1..] == a[1..] + b;
      assert '{' !in a[1..];
      ReplaceParamsPrefix(a[1..], b);
      assert ReplaceParams(s) == [a[0]] + ReplaceParams(s[1..]);
      assert a == [a[0]] + a[1..];
    } else {
      assert a + b == b;
    }
  }

  /** A name that is already safe passes the hyphen and case steps unchanged. */
  lemma {:induction false} TidySafe(s: string)
    requires SafeName(s)
    ensures Tidied(s) == s
  {
    CollapseHyphensFree(s);
    assert TrimLeft(s, '-') == s;
    assert TrimRight(s, '-') == s;
    forall i | 0 <= i < |s| ensures LowerChar(s[i]) == s[i] {
      assert !IsAsciiUpper(s[i]);
    }
  }

  /**
    A path that is already a safe name and holds no `{` is its own file name: sanitizing
    changes nothing that does not need changing.
  */
  lemma {:induction false} SanitizeSafe(path: string)
    requires SafeName(path) && '{' !in path
    ensures SanitizePath(path) == path
  {
    assert !StartsWith(path, "/") by {
      assert path[0] in path;
    }
    ReplaceParamsFree(path);
    assert Dashed(path) == path;
    TidySafe(path);
  }

  /** A path whose cleaned name is known and non-empty is sanitized to that name. */
  lemma SanitizeVia(path: string, name: string)
    requires name != [] && Tidied(Dashed(ReplaceParams(Unrooted(path)))) == name
    ensures SanitizePath(path) == name
  {
  }

  /** A non-empty word of lower-case ASCII letters and digits is a safe name. */
  lemma {:induction false} WordSafe(w: string)
    requires w != [] && forall i :: 0 <= i < |w| ==> 'a' <= w[i] <= 'z' || '0' <= w[i] <= '9'
    ensures SafeName(w)
  {
    forall i | 0 <= i < |w| ensures w[i] != '/' && w[i] != '.' && w[i] != '-' {
    }
  }

  /** Two safe names joined by one hyphen make a safe name. */
  lemma {:induction false} SafeJoin(a: string, b: string)
    requires SafeName(a) && SafeName(b)
    ensures SafeName(a + "-" + b)
  {
    var s := a + "-" + b;
    forall i | 0 <= i < |s| ensures s[i] == (if i < |a| then a[i] else if i == |a| then '-' else b[i - |a| - 1]) {
    }
    forall i | 0 <= i < |s| ensures s[i] != '/' && s[i] != '.' && !IsAsciiUpper(s[i]) {
      if i < |a| { assert a[i] in a; } else if i > |a| { assert b[i - |a| - 1] in b; }
    }
  }

  /** Two safe names with a double hyphen between them tidy to the names joined by one hyphen. */
  lemma {:induction false} TidyDoubleHyphen(a: string, b: string)
    requires SafeName(a) && SafeName(b)
    ensures Tidied(a + "--" + b) == a + "-" + b
  {
    CollapseHyphensShorten(a, b);
    SafeJoin(a, b);
    CollapseHyphensFree(a + "-" + b);
    TidySafe(a + "-" + b);
  }

  /** A path with a single `{name}` parameter: the parameter becomes `-name`, the rest is copied. */
  lemma {:induction false} ReplaceOneParam(a: string, name: string, rest: string)
    requires '{' !in a && name != [] && '}' !in name && '{' !in rest
    ensures ReplaceParams(a + "{" + name + "}" + rest) == a + "-" + name + rest
  {
    assert a + "{" + name + "}" + rest == a + ("{" + name + "}" + rest);
    ReplaceParamsPrefix(a, "{" + name + "}" + rest);
    ReplaceParamsSplice(name, rest);
    ReplaceParamsFree(rest);
  }

  /** The first example of the function's documentation. */
  lemma SanitizeUsersId(path: string)
    requires path == "/users/{id}"
    ensures SanitizePath(path) == "users-id"
  {
    UsersIdSpliced(path);
    UsersIdTidied(ReplaceParams(Unrooted(path)));
    SanitizeVia(path, "users-id");
  }

  /** The hyphen and case steps of the first example. */
  lemma UsersIdTidied(spliced: string)
    requires spliced == "users/" + "-" + "id" + ""
    ensures Tidied(Dashed(spliced)) == "users-id"
  {
    UsersIdDashed(spliced);
    WordSafe("users");
    WordSafe("id");
    TidyDoubleHyphen("users", "id");
    assert "users" + "-" + "id" == "users-id";
  }

  /** The parameter of the first example is spliced in. */
  lemma UsersIdSpliced(path: string)
    requires path == "/users/{id}"
    ensures ReplaceParams(Unrooted(path)) == "users/" + "-" + "id" + ""
  {
    assert Unrooted(path) == "users/" + "{" + "id" + "}" + "";
    ReplaceOneParam("users/", "id", "");
  }

  /** Slashes become hyphens in the first example. */
  lemma UsersIdDashed(spliced: string)
    requires spliced == "users/" + "-" + "id" + ""
    ensures Dashed(spliced) == "users" + "--" + "id"
  {
  }

  /** The second example of the function's documentation. */
  lemma SanitizeProductReviews(path: string)
    requires path == "/api/v1/products/{id}/reviews"
    ensures SanitizePath(path) == "api-v1-products-id-reviews"
  {
    ProductReviewsSpliced(path);
    ProductReviewsTidied(ReplaceParams(Unrooted(path)));
    SanitizeVia(path, "api-v1-products-id-reviews");
  }

  /** The hyphen and case steps of the second example. */
  lemma ProductReviewsTidied(spliced: string)
    requires spliced == "api/v1/products/" + "-" + "id" + "/reviews"
    ensures Tidied(Dashed(spliced)) == "api-v1-products-id-reviews"
  {
    ProductReviewsDashed(spliced);
    ApiV1Products();
    IdReviews();
    TidyDoubleHyphen("api-v1-products", "id-reviews");
    assert "api-v1-products" + "-" + "id-reviews" == "api-v1-products-id-reviews";
  }

  /** The parameter of the second example is spliced in. */
  lemma ProductReviewsSpliced(path: string)
    requires path == "/api/v1/products/{id}/reviews"
    ensures ReplaceParams(Unrooted(path)) == "api/v1/products/" + "-" + "id" + "/reviews"
  {
    ProductReviewsUnrooted(path);
    ReplaceOneParam("api/v1/products/", "id", "/reviews");
  }

  /** The leading `/` of the second example is dropped. */
  lemma ProductReviewsUnrooted(path: string)
    requires path == "/api/v1/products/{id}/reviews"
    ensures Unrooted(path) == "api/v1/products/" + "{" + "id" + "}" + "/reviews"
  {
    assert path[..1] == "/";
  }

  /** Slashes become hyphens in the second example. */
  lemma ProductReviewsDashed(spliced: string)
    requires spliced == "api/v1/products/" + "-" + "id" + "/reviews"
    ensures Dashed(spliced) == "api-v1-products" + "--" + "id-reviews"
  {
  }

  /** The first half of the second example is a safe name. */
  lemma ApiV1Products()
    ensures SafeName("api-v1-products")
  {
    WordSafe("api");
    V1Products();
    SafeJoin("api", "v1-products");
    assert "api" + "-" + "v1-products" == "api-v1-products";
  }

  /** The last two segments of the first half of the second example make a safe name. */
  lemma V1Products()
    ensures SafeName("v1-products")
  {
    WordSafe("v1");
    WordSafe("products");
    SafeJoin("v1", "products");
    assert "v1" + "-" + "products" == "v1-products";
  }

  /** The second half of the second example is a safe name. */
  lemma IdReviews()
    ensures SafeName("id-reviews")
  {
    WordSafe("id");
    WordSafe("reviews");
    SafeJoin("id", "reviews");
    assert "id" + "-" + "reviews" == "id-reviews";
  }

  /** The third example of the function's documentation. */
  lemma SanitizeUsers(path: string)
    requires path == "/users"
    ensures SanitizePath(path) == "users"
  {
    assert path[..1] == "/" && path[1..] == "users";
    UsersTidied();
    SanitizeVia(path, "users");
  }

  /** The steps after the leading `/` leave the third example as it is. */
  lemma UsersTidied()
    ensures Tidied(Dashed(ReplaceParams("users"))) == "users"
  {
    WordKept("users");
  }

  /** A word of lower-case ASCII letters and digits passes every step unchanged. */
  lemma WordKept(w: string)
    requires w != [] && forall i :: 0 <= i < |w| ==> 'a' <= w[i] <= 'z' || '0' <= w[i] <= '9'
    ensures ReplaceParams(w) == w && Dashed(w) == w && Tidied(w) == w
  {
    WordSafe(w);
    assert '{' !in w;
    ReplaceParamsFree(w);
    assert Dashed(w) == w;
    TidySafe(w);
  }
}
