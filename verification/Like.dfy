/** The SQLite LIKE operator and the user-scoped message keys it is used on (pkg/store/store_multi.go). */
module Like {
  import opened Names

  /** `%` matches any run of characters, `_` any one, and ASCII letters match in either case. */
  function Matches(pattern: string, s: string): bool
    decreases |pattern| + |s|
  {
    if pattern == "" then s == ""
    else if pattern[0] == '%' then Matches(pattern[1..], s) || (s != "" && Matches(pattern, s[1..]))
    else if pattern[0] == '_' then s != "" && Matches(pattern[1..], s[1..])
    else s != "" && LowerChar(pattern[0]) == LowerChar(s[0]) && Matches(pattern[1..], s[1..])
  }

  lemma {:induction false} PercentMatchesAll(s: string)
    ensures Matches("%", s)
  {
    if s != "" {
      PercentMatchesAll(s[1..]);
    } else {
      assert Matches("%"[1..], s);
    }
  }

  predicate NoWildcard(s: string) {
    forall i :: 0 <= i < |s| ==> s[i] != '%' && s[i] != '_'
  }

  /** A literal followed by % matches the strings that begin with it up to case. */
  lemma {:induction false} LiteralPrefix(literal: string, s: string)
    requires NoWildcard(literal)
    ensures Matches(literal + "%", s) <==> |literal| <= |s| && ToLower(s[..|literal|]) == ToLower(literal)
  {
    if literal == "" {
      assert literal + "%" == "%";
      PercentMatchesAll(s);
    } else {
      assert (literal + "%")[1..] == literal[1..] + "%";
      if s != "" {
        LiteralPrefix(literal[1..], s[1..]);
        if |literal| <= |s| {
          assert s[1..][..|literal| - 1] == s[..|literal|][1..];
          ToLowerHead(literal);
          ToLowerHead(s[..|literal|]);
          SameCons(LowerChar(literal[0]), ToLower(literal[1..]), LowerChar(s[0]), ToLower(s[..|literal|][1..]));
        }
      }
    }
  }

  lemma SameCons(a: char, x: string, b: char, y: string)
    ensures [a] + x == [b] + y <==> a == b && x == y
  {
    assert ([a] + x)[0] == a && ([b] + y)[0] == b;
    assert ([a] + x)[1..] == x && ([b] + y)[1..] == y;
  }

  lemma ToLowerHead(s: string)
    requires s != ""
    ensures ToLower(s) == [LowerChar(s[0])] + ToLower(s[1..])
  {
  }

  // ---------- user-scoped keys ----------

  function Key(user: string, id: string): string {
    user + ":" + id
  }

  function Pattern(user: string): string {
    user + ":%"
  }

  /** Removes the user prefix where it is present. */
  function Strip(user: string, key: string): string {
    if user + ":" <= key then key[|user| + 1..] else key
  }

  /** Ids without wildcard, colon or capital letter. */
  predicate IsTenantId(u: string) {
    forall i :: 0 <= i < |u| ==> u[i] != '%' && u[i] != '_' && u[i] != ':' && !('A' <= u[i] <= 'Z')
  }

  /** The textual form of a UUID as the daemon generates it. */
  predicate IsUuid(u: string) {
    && |u| == 36
    && forall i :: 0 <= i < 36 ==>
         if i == 8 || i == 13 || i == 18 || i == 23 then u[i] == '-' else 'a' <= u[i] <= 'f' || '0' <= u[i] <= '9'
  }

  lemma UuidsAreTenantIds(u: string)
    requires IsUuid(u)
    ensures IsTenantId(u)
  {
    forall i | 0 <= i < |u|
      ensures u[i] != '%' && u[i] != '_' && u[i] != ':' && !('A' <= u[i] <= 'Z')
    {
      assert if i == 8 || i == 13 || i == 18 || i == 23 then u[i] == '-' else 'a' <= u[i] <= 'f' || '0' <= u[i] <= '9';
    }
  }

  lemma KeyIsInjective(u: string, m: string, v: string, n: string)
    requires IsTenantId(u) && IsTenantId(v)
    ensures Key(u, m) == Key(v, n) <==> u == v && m == n
  {
    var a, b := Key(u, m), Key(v, n);
    if a == b {
      ColonDecides(u, m, v, n);
      assert a[..|u|] == u && b[..|v|] == v;
      assert a[|u| + 1..] == m && b[|v| + 1..] == n;
    }
  }

  /** The first colon of a key is the one after the user id. */
  lemma ColonDecides(u: string, m: string, v: string, n: string)
    requires IsTenantId(u) && IsTenantId(v) && Key(u, m) == Key(v, n)
    ensures |u| == |v|
  {
    var a, b := Key(u, m), Key(v, n);
    assert a[|u|] == ':' && b[|v|] == ':';
    assert forall i :: 0 <= i < |v| ==> b[i] == v[i];
    assert forall i :: 0 <= i < |u| ==> a[i] == u[i];
  }

  lemma LowercaseIsKept(s: string)
    requires forall i :: 0 <= i < |s| ==> !('A' <= s[i] <= 'Z')
    ensures ToLower(s) == s
  {
  }

  /** A user's pattern finds exactly that user's keys, and stripping gives the id back. */
  lemma PatternIsolatesTenants(u: string, v: string, m: string)
    requires IsTenantId(u) && IsTenantId(v)
    ensures Matches(Pattern(u), Key(v, m)) <==> u == v
    ensures Strip(u, Key(u, m)) == m
  {
    var literal, key := u + ":", Key(v, m);
    assert Pattern(u) == literal + "%";
    assert NoWildcard(literal);
    LiteralPrefix(literal, key);
    LowercaseIsKept(literal);
    assert Key(u, m)[..|u| + 1] == literal && Key(u, m)[|u| + 1..] == m;
    if |literal| <= |key| && ToLower(key[..|literal|]) == literal {
      PrefixDecides(u, v, m);
    }
  }

  lemma PrefixDecides(u: string, v: string, m: string)
    requires IsTenantId(u) && IsTenantId(v) && |u| < |Key(v, m)|
    requires ToLower(Key(v, m)[..|u| + 1]) == u + ":"
    ensures u == v
  {
    var key := Key(v, m);
    var head := key[..|u| + 1];
    assert forall i :: 0 <= i <= |u| ==> ToLower(head)[i] == LowerChar(key[i]);
    assert LowerChar(key[|u|]) == ':';
    assert forall i :: 0 <= i < |u| ==> ToLower(head)[i] == u[i];
    assert key[|v|] == ':';
    assert forall i :: 0 <= i < |v| ==> key[i] == v[i];
  }

  /** With a wildcard or a capital letter in the id another user's keys would be found as well. */
  lemma WildcardsAndCapitalsLeak()
    ensures Matches(Pattern("a_"), Key("ab", "m")) && Matches(Pattern("A"), Key("a", "m"))
  {
    LeakByWildcard();
    LeakByCase();
  }

  lemma LeakByWildcard()
    ensures Matches("a_:%", "ab:m")
  {
    PercentMatchesAll("m");
    assert "a_:%"[1..] == "_:%" && "_:%"[1..] == ":%" && ":%"[1..] == "%";
    assert "ab:m"[1..] == "b:m" && "b:m"[1..] == ":m" && ":m"[1..] == "m";
    assert Matches(":%", ":m");
    assert Matches("_:%", "b:m");
  }

  lemma LeakByCase()
    ensures Matches("A:%", "a:m")
  {
    PercentMatchesAll("m");
    assert "A:%"[1..] == ":%" && ":%"[1..] == "%";
    assert "a:m"[1..] == ":m" && ":m"[1..] == "m";
    assert Matches(":%", ":m");
  }
}
