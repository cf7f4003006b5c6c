/**
 * The noxdir `mode` property. Chmod-style modes are validated, normalised and
 * resolved against a current mode by Puppet's SymbolicFileMode helpers, whose
 * code is not part of this model; they are the three uninterpreted functions
 * of a `SymbolicFileMode` value. What is modelled is how the property wires
 * them to the resource's stat memo, and the display rule.
 */
module NoxdirMode {
  import opened Wrappers
  import opened Octal
  import opened NoxdirStat

  datatype SymbolicFileMode = SymbolicFileMode(
    valid: string -> bool,              // valid_symbolic_mode?
    normalize: string -> string,        // normalize_symbolic_mode
    toInt: (string, nat, bool) -> nat)  // symbolic_mode_to_int(desired, current, is_a_directory)

  /** A current mode as the property receives it: an octal String or an Integer. */
  datatype ModeValue = Text(text: string) | Number(n: nat)

  /** The mode used in place of the stat's when the path could not be stat-ed (0644). */
  const DefaultMode: nat := 420

  /** `current.to_i(8) if current.is_a? String`. */
  function CurrentBits(current: ModeValue): (n: nat)
    ensures current.Number? ==> n == current.n
    ensures current.Text? ==> n == ParseOctal(current.text)
  {
    match current
    case Text(t) => ParseOctal(t)
    case Number(n) => n
  }

  /**
   * `is_a_directory = @resource.stat and @resource.stat.directory?` assigns
   * the stat itself (`and` binds looser than `=`), so the flag handed to the
   * resolver is true for every path that could be stat-ed, directory or not.
   */
  function DirectoryFlag(stat: Option<StatInfo>): (b: bool)
    ensures b <==> stat.Some?
  {
    stat.Some?
  }

  lemma DirectoryFlagIgnoresKind(mode: nat)
    ensures DirectoryFlag(Some(StatInfo(mode, false))) == DirectoryFlag(Some(StatInfo(mode, true))) == true
    ensures !DirectoryFlag(None)
  {
  }

  /** `desired_mode_from_current` once the stat is known. */
  function DesiredMode(lib: SymbolicFileMode, desired: string, current: ModeValue, stat: Option<StatInfo>): (n: nat)
    ensures stat.Some? ==> n == lib.toInt(desired, CurrentBits(current), true)
    ensures stat.None? ==> n == lib.toInt(desired, CurrentBits(current), false)
  {
    lib.toInt(desired, CurrentBits(current), DirectoryFlag(stat))
  }

  /** `property_matches?` once the stat is known. */
  function Matches(lib: SymbolicFileMode, current: Option<string>, desired: string, stat: Option<StatInfo>): (b: bool)
    ensures current.None? ==> !b
    ensures current.Some? ==>
              (b <==> lib.normalize(current.value) == ToOctalString(lib.toInt(desired, ParseOctal(current.value), stat.Some?)))
  {
    current.Some? && lib.normalize(current.value) == ToOctalString(DesiredMode(lib, desired, Text(current.value), stat))
  }

  /**
   * The octal string `sync` hands to the provider once the stat is known: the
   * canonical numeral of the mode resolved against the stat's mode (directory
   * flag true), or against 0644 (flag false) when there is no stat.
   */
  function SyncTarget(lib: SymbolicFileMode, desired: string, stat: Option<StatInfo>): (r: string)
    ensures Canonical(r)
    ensures stat.Some? ==> r == ToOctalString(lib.toInt(desired, stat.value.mode, true))
    ensures stat.None? ==> r == ToOctalString(lib.toInt(desired, DefaultMode, false))
  {
    var current := if stat.Some? then stat.value.mode else DefaultMode;
    ToOctalString(DesiredMode(lib, desired, Number(current), stat))
  }

  /**
   * What `sync` sets is the mode resolved against the stat's mode, or against
   * 0644 with a false directory flag when there is no stat; read back with
   * to_i(8) it is exactly that mode.
   */
  lemma SyncTargetResolves(lib: SymbolicFileMode, desired: string, stat: Option<StatInfo>)
    ensures stat.Some? ==> ParseOctal(SyncTarget(lib, desired, stat)) == lib.toInt(desired, stat.value.mode, true)
    ensures stat.None? ==> ParseOctal(SyncTarget(lib, desired, stat)) == lib.toInt(desired, DefaultMode, false)
  {
    ParseOctalOfToOctal(DesiredMode(lib, desired, Number(if stat.Some? then stat.value.mode else DefaultMode), stat));
  }

  /** `should_to_s` / `is_to_s`: a mode is shown left-padded with zeros to four characters. */
  function Display(value: string): (r: string)
    ensures |r| == if |value| >= 4 then |value| else 4
    ensures r[|r| - |value|..] == value
    ensures forall i :: 0 <= i < |r| - |value| ==> r[i] == '0'
    ensures |value| >= 4 ==> r == value
  {
    LeftPad(value, 4, '0')
  }

  /** Padding never changes the mode a numeral denotes. */
  lemma DisplayKeepsMode(n: nat)
    ensures ParseOctal(Display(ToOctalString(n))) == n
  {
    var s := ToOctalString(n);
    var r := Display(s);
    var z := r[..|r| - |s|];
    assert r == z + s;
    ValueOfLeadingZeros(z, s);
    PrefixOfAllOctal(r);
    assert r[..|r|] == r;
    ValueOfToOctal(n);
  }

  /** The property's `validate`: nil, or a valid symbolic or numeric mode. */
  function Validate(lib: SymbolicFileMode, value: Option<string>): (r: Result<(), string>)
    ensures r.Success? <==> value.None? || lib.valid(value.value)
    ensures r.Failure? ==> r.error == value.value
  {
    if value.None? || lib.valid(value.value) then Success(()) else Failure(value.value)
  }

  /** The property's `munge`: nil stays nil, a valid mode is stored normalised. */
  function Munge(lib: SymbolicFileMode, value: Option<string>): (r: Result<Option<string>, string>)
    ensures r.Success? <==> Validate(lib, value).Success?
    ensures r.Failure? ==> r == Failure(Validate(lib, value).error)
    ensures r.Success? ==> r.value == if value.None? then None else Some(lib.normalize(value.value))
  {
    if value.None? then Success(None)
    else if !lib.valid(value.value) then Failure(value.value)
    else Success(Some(lib.normalize(value.value)))
  }

  class ModeProperty {
    const resource: NoxDir
    const should: seq<string>
    const lib: SymbolicFileMode

    constructor (resource: NoxDir, should: seq<string>, lib: SymbolicFileMode)
      ensures this.resource == resource && this.should == should && this.lib == lib
    {
      this.resource := resource;
      this.should := should;
      this.lib := lib;
    }

    /** `desired_mode_from_current`: stats the resource (at most once) and resolves. */
    method DesiredModeFromCurrent(desired: string, current: ModeValue, disk: StatOutcome)
      returns (r: Result<nat, string>)
      modifies resource
      ensures var step := StatTransition(old(resource.memo), disk);
              resource.memo == step.memo
              && resource.statCalls == old(resource.statCalls) + (if step.consulted then 1 else 0)
              && resource.accessWarnings == old(resource.accessWarnings) + (if step.warned then 1 else 0)
              && r == match step.result
                      case Failure(e) => Failure(e)
                      case Success(st) => Success(DesiredMode(lib, desired, current, st))
    {
      var st := resource.Stat(disk);
      if st.Failure? {
        return Failure(st.error);
      }
      var isDirectory := st.value;
      if isDirectory.Some? {
        // `and @resource.stat.directory?`: evaluated from the memo and discarded
        var again := resource.Stat(disk);
      }
      r := Success(lib.toInt(desired, CurrentBits(current), isDirectory.Some?));
    }

    /** `property_matches?`: a missing current mode never matches and is not stat-ed for. */
    method PropertyMatches(current: Option<string>, desired: string, disk: StatOutcome)
      returns (r: Result<bool, string>)
      modifies resource
      ensures current.None? ==> r == Success(false) && resource.memo == old(resource.memo)
                                && resource.statCalls == old(resource.statCalls)
                                && resource.accessWarnings == old(resource.accessWarnings)
      ensures current.Some? ==>
                var step := StatTransition(old(resource.memo), disk);
                resource.memo == step.memo
                && resource.statCalls == old(resource.statCalls) + (if step.consulted then 1 else 0)
                && resource.accessWarnings == old(resource.accessWarnings) + (if step.warned then 1 else 0)
                && r == match step.result
                        case Failure(e) => Failure(e)
                        case Success(st) => Success(Matches(lib, current, desired, st))
    {
      if current.None? {
        return Success(false);
      }
      var currentBits := lib.normalize(current.value);
      var desiredBits := DesiredModeFromCurrent(desired, Text(current.value), disk);
      if desiredBits.Failure? {
        return Failure(desiredBits.error);
      }
      r := Success(currentBits == ToOctalString(desiredBits.value));
    }

    /** `sync`: re-resolve the first should value against the mode on disk and set it. */
    method Sync(disk: StatOutcome) returns (r: Result<string, string>)
      requires |should| > 0
      modifies resource
      ensures var step := StatTransition(old(resource.memo), disk);
              resource.memo == step.memo
              && resource.statCalls == old(resource.statCalls) + (if step.consulted then 1 else 0)
              && resource.accessWarnings == old(resource.accessWarnings) + (if step.warned then 1 else 0)
              && r == match step.result
                      case Failure(e) => Failure(e)
                      case Success(st) => Success(SyncTarget(lib, should[0], st))
    {
      var st := resource.Stat(disk);
      if st.Failure? {
        return Failure(st.error);
      }
      var current := if st.value.Some? then st.value.value.mode else DefaultMode;
      var desiredMode := DesiredModeFromCurrent(should[0], Number(current), disk);
      r := Success(ToOctalString(desiredMode.value));
    }
  }
}
