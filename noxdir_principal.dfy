/**
 * The noxdir `owner` and `group` properties. Their values are user or group
 * references, given by name or by numeric id; names are turned into ids only
 * when the property is evaluated, because the user or group may be created
 * earlier in the same run. The provider's name-to-id lookups are passed in as
 * maps: a reference missing from the map is one the lookup cannot resolve.
 */
module NoxdirPrincipal {
  import opened Wrappers

  /** A Ruby String or Integer given as an owner or group. */
  datatype Principal = Name(name: string) | Id(id: int)

  datatype Kind = Owner | Group

  /** `raise "Could not find user …"` / `"Could not find group …"`. */
  datatype LookupError = CouldNotFind(kind: Kind, value: Principal)

  /** `raise "Invalid user name …"` / `"Invalid group name …"`. */
  datatype ValidationError = InvalidName(kind: Kind, value: Option<Principal>)

  /** Index of the first reference the lookup cannot resolve, or |s| when all resolve. */
  function FirstUnresolved(s: seq<Principal>, lookup: map<Principal, int>): (k: nat)
    ensures k <= |s|
    ensures forall j :: 0 <= j < k ==> s[j] in lookup
    ensures k < |s| ==> s[k] !in lookup
  {
    if |s| == 0 || s[0] !in lookup then 0 else 1 + FirstUnresolved(s[1..], lookup)
  }

  /**
   * The in-sync decision once the should-list has been resolved: a current
   * owner or group in the list is in sync; an owner that is not in the list
   * is still reported in sync when the process is not root, since it could
   * not be changed anyway.
   */
  predicate InSyncDecision(kind: Kind, resolved: seq<Principal>, current: Principal, isRoot: bool)
    ensures current in resolved ==> InSyncDecision(kind, resolved, current, isRoot)
    ensures current !in resolved ==> (InSyncDecision(kind, resolved, current, isRoot) <==> kind == Owner && !isRoot)
  {
    current in resolved || (kind == Owner && !isRoot)
  }

  /** Only the owner has the not-root exemption; a group is in sync only when listed. */
  lemma OwnerExemptionOnly(resolved: seq<Principal>, current: Principal, isRoot: bool)
    ensures InSyncDecision(Group, resolved, current, isRoot) <==> current in resolved
    ensures !isRoot ==> InSyncDecision(Owner, resolved, current, isRoot)
    ensures InSyncDecision(Group, resolved, current, isRoot) ==> InSyncDecision(Owner, resolved, current, isRoot)
  {
  }

  class PrincipalProperty {
    const kind: Kind
    var should: seq<Principal>
    ghost var warnedNotRoot: bool   // "Cannot manage ownership unless running as root" was logged

    constructor (kind: Kind, should: seq<Principal>)
      ensures this.kind == kind && this.should == should && !warnedNotRoot
    {
      this.kind := kind;
      this.should := should;
      warnedNotRoot := false;
    }

    /**
     * `insync?`: resolve the should-list in place (`@should.map!`), raising on
     * the first reference that does not resolve; entries before it have
     * already been replaced by their ids, the rest are untouched.
     */
    method InSync(current: Principal, lookup: map<Principal, int>, isRoot: bool)
      returns (r: Result<bool, LookupError>)
      modifies this
      ensures var k := FirstUnresolved(old(should), lookup);
              |should| == |old(should)|
              && (forall j :: 0 <= j < k ==> should[j] == Id(lookup[old(should)[j]]))
              && should[k..] == old(should)[k..]
              && (k < |should| ==> r == Failure(CouldNotFind(kind, old(should)[k])))
              && (k == |should| ==> r == Success(InSyncDecision(kind, should, current, isRoot)))
      ensures warnedNotRoot <==> old(warnedNotRoot) || (r.Success? && kind == Owner && current !in should && !isRoot)
    {
      var i := 0;
      while i < |should|
        invariant 0 <= i <= |should| == |old(should)|
        invariant forall j :: 0 <= j < i ==> old(should)[j] in lookup && should[j] == Id(lookup[old(should)[j]])
        invariant should[i..] == old(should)[i..]
        invariant warnedNotRoot == old(warnedNotRoot)
      {
        var v := should[i];
        if v !in lookup {
          assert old(should)[i] == v;
          return Failure(CouldNotFind(kind, v));
        }
        should := should[i := Id(lookup[v])];
        i := i + 1;
      }
      if current in should {
        return Success(true);
      }
      if kind == Owner {
        if !isRoot {
          warnedNotRoot := true;
          return Success(true);
        }
      }
      r := Success(false);
    }
  }

  /** `is_to_s` / `should_to_s`: a resolvable id is shown as its name, anything else as given. */
  function Display(value: Principal, idToName: map<Principal, string>): (r: Principal)
    ensures value in idToName ==> r.Name? && r.name == idToName[value]
    ensures value !in idToName ==> r == value
  {
    if value in idToName then Name(idToName[value]) else value
  }

  /**
   * The provider's two lookups agree: every id that has a name is found again
   * under that name, and an id given as a number resolves to itself.
   */
  ghost predicate LookupsAgree(idToName: map<Principal, string>, nameToId: map<Principal, int>) {
    && (forall i :: Id(i) in idToName ==> Name(idToName[Id(i)]) in nameToId && nameToId[Name(idToName[Id(i)])] == i)
    && (forall i :: Id(i) in nameToId ==> nameToId[Id(i)] == i)
  }

  /**
   * When the lookups agree, what is displayed for any known id resolves back
   * to that id: the display never names a different principal.
   */
  lemma DisplayResolvesBack(idToName: map<Principal, string>, nameToId: map<Principal, int>)
    requires LookupsAgree(idToName, nameToId)
    ensures forall u :: Id(u) in idToName || Id(u) in nameToId ==>
              Display(Id(u), idToName) in nameToId && nameToId[Display(Id(u), idToName)] == u
  {
    forall u | Id(u) in idToName || Id(u) in nameToId
      ensures Display(Id(u), idToName) in nameToId && nameToId[Display(Id(u), idToName)] == u
    {
      if Id(u) in idToName {
        assert Display(Id(u), idToName) == Name(idToName[Id(u)]);
      } else {
        assert Display(Id(u), idToName) == Id(u);
      }
    }
  }

  /** The property's `validate`: nil and the empty string are refused. */
  function Validate(kind: Kind, value: Option<Principal>): (r: Result<(), ValidationError>)
    ensures r.Success? <==> value.Some? && value.value != Name("")
    ensures r.Failure? ==> r.error == InvalidName(kind, value)
  {
    if value.None? || value.value == Name("") then Failure(InvalidName(kind, value)) else Success(())
  }
}
