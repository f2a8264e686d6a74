/**
 * Navigation highlighting: which of the four navigation links is marked
 * active for the current location's pathname.
 */
module Layout {

  /** The `path` of each entry of `navItems`: Dashboard, Goals, Tasks, Weekly Review. */
  const NavPaths: seq<string> := ["/", "/goals", "/tasks", "/weekly-review"]

  /** `s.startsWith(prefix)` */
  predicate StartsWith(s: string, prefix: string) {
    |prefix| <= |s| && s[..|prefix|] == prefix
  }

  /** A path starts a pathname exactly when the pathname is the path followed by more text. */
  lemma StartsWithIsPrefix(s: string, prefix: string)
    ensures StartsWith(s, prefix) <==> exists rest :: s == prefix + rest
  {
    if StartsWith(s, prefix) {
      assert s == prefix + s[|prefix|..];
    }
    if exists rest :: s == prefix + rest {
      var rest :| s == prefix + rest;
      assert s[..|prefix|] == prefix;
    }
  }

  /** `isActive(path)`: the root matches only itself, any other path every pathname it starts. */
  function IsActive(pathname: string, path: string): (active: bool)
    ensures path == "/" ==> (active <==> pathname == "/")
    ensures path != "/" ==> (active <==> StartsWith(pathname, path))
  {
    if path == "/" then pathname == "/" else StartsWith(pathname, path)
  }

  /** Two prefixes of one string: the shorter is a prefix of the longer. */
  lemma PrefixesOfOneString(s: string, a: string, b: string)
    requires StartsWith(s, a) && StartsWith(s, b) && |a| <= |b|
    ensures StartsWith(b, a)
  {
    assert b[..|a|] == s[..|b|][..|a|] == s[..|a|];
  }

  /** No navigation path other than the root starts another. */
  lemma NavPathsPrefixFree()
    ensures forall i, j :: (1 <= i < |NavPaths| && 1 <= j < |NavPaths| && i != j)
                        ==> !StartsWith(NavPaths[j], NavPaths[i])
  {
    assert NavPaths[1][1] == 'g' && NavPaths[2][1] == 't' && NavPaths[3][1] == 'w';
  }

  /** At most one navigation link is active, whatever the pathname. */
  lemma AtMostOneActive(pathname: string)
    ensures forall i, j :: (0 <= i < j < |NavPaths| && IsActive(pathname, NavPaths[i]))
                        ==> !IsActive(pathname, NavPaths[j])
  {
    NavPathsPrefixFree();
    forall i, j | 0 <= i < j < |NavPaths| && IsActive(pathname, NavPaths[i])
      ensures !IsActive(pathname, NavPaths[j])
    {
      if i > 0 && IsActive(pathname, NavPaths[j]) {
        var a, b := NavPaths[i], NavPaths[j];
        if |a| <= |b| {
          PrefixesOfOneString(pathname, a, b);
        } else {
          PrefixesOfOneString(pathname, b, a);
        }
      }
    }
  }

  /** The indices of the active navigation links. */
  function ActiveItems(pathname: string): (active: set<nat>)
    ensures forall i: nat :: i in active <==> (i < |NavPaths| && IsActive(pathname, NavPaths[i]))
    ensures |active| <= 1
  {
    AtMostOneActive(pathname);
    var active := set i: nat | i < |NavPaths| && IsActive(pathname, NavPaths[i]);
    if active == {} then active
    else
      var k :| k in active;
      assert forall i :: i in active ==> i == k;
      assert active == {k};
      active
  }

  /** Each page's own path activates exactly its own link. */
  lemma EachPageActivatesItsLink()
    ensures forall i :: 0 <= i < |NavPaths| ==> ActiveItems(NavPaths[i]) == {i}
  {
    NavPathsPrefixFree();
    forall i | 0 <= i < |NavPaths|
      ensures ActiveItems(NavPaths[i]) == {i}
    {
      var active := ActiveItems(NavPaths[i]);
      assert IsActive(NavPaths[i], NavPaths[i]);
    }
  }

  /**
   * A sub-route keeps its section's link active, and so does any pathname
   * that merely starts with the section's path; the root link stays off.
   */
  lemma PrefixMatching()
    ensures IsActive("/goals/42", "/goals") && IsActive("/goalsX", "/goals")
    ensures !IsActive("/goals/42", "/") && !IsActive("", "/") && !IsActive("/goal", "/goals")
    ensures ActiveItems("/unknown") == {}
  {
    assert !StartsWith("/unknown", "/goals") by { assert "/unknown"[1] == 'u'; }
    assert !StartsWith("/unknown", "/tasks") by { assert "/unknown"[1] == 'u'; }
    assert !StartsWith("/unknown", "/weekly-review") by { assert "/unknown"[1] == 'u'; }
  }
}
