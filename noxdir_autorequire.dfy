/**
 * The noxdir autorequire rules: the nearest managed ancestor directory, and
 * the managed owner and group when they are given by name. A path is a
 * sequence of components below the root (the root is the empty sequence),
 * so its ancestors are its proper prefixes; the catalog's `file` resources
 * are the set of paths it holds.
 */
module NoxdirAutorequire {
  import opened Wrappers
  import opened NoxdirPrincipal

  type Path = seq<string>

  predicate IsProperAncestor(a: Path, p: Path) {
    |a| < |p| && a == p[..|a|]
  }

  /** The first of p[..k], p[..k-1], …, p[..0] that the catalog holds. */
  function NearestFrom(p: Path, catalog: set<Path>, k: nat): (r: Option<Path>)
    requires k <= |p|
    ensures r.Some? ==> r.value in catalog && |r.value| <= k && r.value == p[..|r.value|]
    ensures r.Some? ==> forall j :: |r.value| < j <= k ==> p[..j] !in catalog
    ensures r.None? ==> forall j :: 0 <= j <= k ==> p[..j] !in catalog
  {
    if p[..k] in catalog then Some(p[..k])
    else if k == 0 then None
    else NearestFrom(p, catalog, k - 1)
  }

  /**
   * The ancestor the file autorequire names: none for the root, otherwise
   * the nearest proper ancestor the catalog holds, starting at the parent.
   */
  function NearestAncestor(p: Path, catalog: set<Path>): (r: Option<Path>)
    ensures |p| == 0 ==> r.None?
    ensures r.Some? ==> IsProperAncestor(r.value, p) && r.value in catalog
    ensures r.Some? ==> forall a :: IsProperAncestor(a, p) && |a| > |r.value| ==> a !in catalog
    ensures r.None? ==> forall a :: IsProperAncestor(a, p) ==> a !in catalog
  {
    if |p| == 0 then None
    else
      var r := NearestFrom(p, catalog, |p| - 1);
      assert forall a :: IsProperAncestor(a, p) ==> a == p[..|a|];
      r
  }

  /** `autorequire(:file)`: walk up from the parent and require the first managed directory. */
  method AutorequireFile(p: Path, catalog: set<Path>) returns (req: seq<Path>)
    ensures |req| <= 1
    ensures req == match NearestAncestor(p, catalog) case None => [] case Some(a) => [a]
    ensures forall i :: 0 <= i < |req| ==> req[i] != p
  {
    req := [];
    if |p| > 0 {
      var k := |p| - 1;
      while true
        invariant 0 <= k < |p|
        invariant NearestAncestor(p, catalog) == NearestFrom(p, catalog, k)
        decreases k
      {
        if p[..k] in catalog {
          req := req + [p[..k]];
          break;
        }
        if k == 0 {
          break;
        }
        k := k - 1;
      }
    }
  }

  predicate IsDigit(c: char) {
    '0' <= c <= '9'
  }

  /** `val =~ /^\d+$/`, with the anchors at the ends of the string. */
  predicate AllDigits(s: string) {
    |s| > 0 && forall i :: 0 <= i < |s| ==> IsDigit(s[i])
  }

  /**
   * `autorequire(:user)` / `autorequire(:group)`: the first value the owner or
   * group was declared with (before insync? turned it into an id), unless it
   * is numeric. `None` covers both an unset property and a nil should-list.
   */
  function AutorequirePrincipal(should: Option<seq<Principal>>): (r: Option<string>)
    ensures r.Some? <==> should.Some? && |should.value| > 0 && should.value[0].Name? && !AllDigits(should.value[0].name)
    ensures r.Some? ==> r.value == should.value[0].name
  {
    if should.None? || |should.value| == 0 then None
    else match should.value[0]
      case Id(_) => None
      case Name(n) => if AllDigits(n) then None else Some(n)
  }
}
