/** The SQL LIKE operator, and exactly when the patterns built by concatenation mean what their
    callers intend.

    The search compiler wraps a term in '%' to ask for containment; the index worker appends '$%'
    to a root to ask for its subtree. Neither escapes the wildcards '%' and '_' or the escape
    character itself. */
module LikePatterns {

  /** s LIKE p. A pattern that ends in the escape character, which PostgreSQL rejects, is never
      built here and matches nothing. */
  predicate Like(s: string, p: string)
    decreases |s| + |p|
  {
    if p == "" then s == ""
    else if p[0] == '%' then Like(s, p[1..]) || (s != "" && Like(s[1..], p))
    else if s == "" then false
    else if p[0] == '_' then Like(s[1..], p[1..])
    else if p[0] == '\\' then |p| > 1 && s[0] == p[1] && Like(s[1..], p[2..])
    else s[0] == p[0] && Like(s[1..], p[1..])
  }

  /** v occurs in s. */
  ghost predicate Contains(s: string, v: string) {
    exists i | 0 <= i <= |s| :: v <= s[i..]
  }

  predicate PlainText(v: string) {
    '%' !in v && '_' !in v && '\\' !in v
  }

  function Containing(v: string): string {
    "%" + v + "%"
  }

  lemma {:induction false} LikeAnything(s: string)
    ensures Like(s, "%")
  {
    if s != "" { LikeAnything(s[1..]); }
  }

  /** v with every character escaped, and a pattern of n single wildcards. */
  function Escaped(v: string): string {
    if v == "" then "" else ['\\', v[0]] + Escaped(v[1..])
  }

  function Underscores(n: nat): string {
    if n == 0 then "" else "_" + Underscores(n - 1)
  }

  /** An escaped text matches itself alone, whatever characters it has. */
  lemma {:induction false} EscapedIsLiteral(s: string, v: string)
    ensures Like(s, Escaped(v)) <==> s == v
  {
    if v != "" {
      assert Escaped(v)[2..] == Escaped(v[1..]) && Escaped(v)[1] == v[0];
      if s != "" {
        EscapedIsLiteral(s[1..], v[1..]);
        assert s == [s[0]] + s[1..] && v == [v[0]] + v[1..];
      }
    }
  }

  /** n underscores match the texts of n characters. */
  lemma {:induction false} UnderscoresCount(s: string, n: nat)
    ensures Like(s, Underscores(n)) <==> |s| == n
  {
    if n > 0 {
      assert Underscores(n)[1..] == Underscores(n - 1);
      if s != "" { UnderscoresCount(s[1..], n - 1); }
    }
  }

  /** Without wildcards, a trailing '%' asks for a prefix. */
  lemma {:induction false} LikePrefix(s: string, v: string)
    requires PlainText(v)
    ensures Like(s, v + "%") <==> v <= s
  {
    if v == "" {
      assert v + "%" == "%";
      LikeAnything(s);
    } else {
      assert (v + "%")[1..] == v[1..] + "%";
      assert v[0] in v;
      if s != "" { LikePrefix(s[1..], v[1..]); }
    }
  }

  lemma {:induction false} LikeContaining(s: string, v: string)
    requires PlainText(v)
    ensures Like(s, Containing(v)) <==> Contains(s, v)
  {
    var p := Containing(v);
    assert p[1..] == v + "%";
    LikePrefix(s, v);
    assert s[0..] == s;
    if s != "" {
      LikeContaining(s[1..], v);
      if Contains(s[1..], v) {
        var i :| 0 <= i <= |s[1..]| && v <= s[1..][i..];
        assert s[1..][i..] == s[i + 1..];
      }
      if Contains(s, v) {
        var i :| 0 <= i <= |s| && v <= s[i..];
        if i > 0 { assert s[1..][i - 1..] == s[i..]; }
      }
    }
  }

  /** A string that v + "%" matches although v does not start it, when v is not plain. */
  function Decoy(v: string): string {
    if v == "" then ""
    else if v[0] == '%' then Decoy(v[1..])
    else if v[0] == '_' then "x" + Decoy(v[1..])
    else if v[0] == '\\' then if |v| == 1 then "%" else [v[1]] + Decoy(v[2..])
    else [v[0]] + Decoy(v[1..])
  }

  lemma {:induction false} DecoyMatches(v: string)
    ensures Like(Decoy(v), v + "%")
    decreases |v|
  {
    if v == "" {
    } else if v[0] == '\\' && |v| > 1 {
      assert (v + "%")[2..] == v[2..] + "%";
      DecoyMatches(v[2..]);
    } else if v[0] == '\\' {
      assert (v + "%")[2..] == "";
    } else {
      assert (v + "%")[1..] == v[1..] + "%";
      DecoyMatches(v[1..]);
    }
  }

  lemma {:induction false} DecoyDiffers(v: string)
    ensures |Decoy(v)| <= |v| && (Decoy(v) == v ==> PlainText(v))
    decreases |v|
  {
    if v != "" {
      if v[0] == '\\' && |v| > 1 { DecoyDiffers(v[2..]); } else { DecoyDiffers(v[1..]); }
      if Decoy(v) == v {
        assert v[0] != '%' && v[0] != '\\' && v[0] != '_';
        assert Decoy(v)[1..] == Decoy(v[1..]);
      }
    }
  }

  /** Wrapping a term in '%' means containment for every subject exactly when the term has no
      wildcard and no escape character. */
  lemma ContainingIffPlain(v: string)
    ensures (forall s :: Like(s, Containing(v)) <==> Contains(s, v)) <==> PlainText(v)
  {
    if PlainText(v) {
      forall s ensures Like(s, Containing(v)) <==> Contains(s, v) { LikeContaining(s, v); }
    } else {
      var s := Decoy(v);
      DecoyMatches(v);
      DecoyDiffers(v);
      assert Containing(v)[1..] == v + "%";
      assert Like(s, Containing(v));
      forall i | 0 <= i <= |s| ensures !(v <= s[i..]) {
        assert s[0..] == s && |s[i..]| == |s| - i;
      }
      assert !Contains(s, v);
    }
  }

  lemma PercentMatches()
    ensures Like("50 cats", "%50%%") && !Contains("50 cats", "50%")
  {
    var s, v := "50 cats", "50%";
    PercentPrefix();
    assert "%50%%"[1..] == "50%%";
    forall i | 0 <= i <= |s| ensures !(v <= s[i..]) {
      assert v[2] == '%' && forall j | 0 <= j < |s| :: s[j] != '%';
    }
    assert !Contains(s, v);
  }

  lemma PercentPrefix()
    ensures Like("50 cats", "50%%")
  {
    LikeAnything(" cats");
    assert "50 cats"[1..] == "0 cats" && "0 cats"[1..] == " cats";
    assert "50%%"[1..] == "0%%" && "0%%"[1..] == "%%" && "%%"[1..] == "%";
    assert Like(" cats", "%%");
    assert Like("0 cats", "0%%");
  }

  // ----- Scopes of catalog paths -----

  /** The scope of the stale-row deletion: the root, and what LIKE root || '$%' selects. */
  predicate InScope(path: string, root: string) {
    root == "" || path == root || Like(path, root + "$%")
  }

  /** The intended scope: the root and everything below it. */
  predicate InSubtree(path: string, root: string) {
    root == "" || path == root || root + "$" <= path
  }

  function Unwild(v: string): (w: string)
    ensures '%' !in w && '_' !in w
  {
    if v == "" then ""
    else if v[0] == '%' then Unwild(v[1..])
    else [if v[0] == '_' then 'x' else v[0]] + Unwild(v[1..])
  }

  lemma {:induction false} UnwildMatches(v: string, tail: string, p: string)
    requires '\\' !in v && Like(tail, p)
    ensures Like(Unwild(v) + tail, v + p)
  {
    if v == "" {
      assert Unwild(v) + tail == tail && v + p == p;
    } else {
      assert v[0] in v;
      assert (v + p)[1..] == v[1..] + p;
      UnwildMatches(v[1..], tail, p);
      if v[0] != '%' { assert (Unwild(v) + tail)[1..] == Unwild(v[1..]) + tail; }
    }
  }

  /** For a root of safe components, which has no backslash, the deletion's scope is the subtree
      exactly when the root has neither '%' nor '_'. */
  lemma ScopeIsSubtreeIff(root: string)
    requires '\\' !in root
    ensures (forall path :: InScope(path, root) <==> InSubtree(path, root)) <==> '%' !in root && '_' !in root
  {
    if '%' !in root && '_' !in root {
      forall path ensures InScope(path, root) <==> InSubtree(path, root) {
        ScopeIsSubtree(path, root);
      }
    } else {
      var path := Unwild(root) + "$";
      LikeAnything("");
      assert "$%"[1..] == "%" && "$"[1..] == "";
      assert Like("$", "$%");
      UnwildMatches(root, "$", "$%");
      assert InScope(path, root);
      var k :| 0 <= k < |root| && (root[k] == '%' || root[k] == '_');
      assert (root + "$")[k] == root[k];
      assert k < |path| ==> path[k] in path;
      assert path[|path| - 1] == '$';
      assert '%' !in path && '_' !in path;
    }
  }

  lemma ScopeIsSubtree(path: string, root: string)
    requires PlainText(root)
    ensures InScope(path, root) <==> InSubtree(path, root)
  {
    assert root + "$%" == (root + "$") + "%";
    LikePrefix(path, root + "$");
  }
}
