/**
 * The noxdir resource itself: its path, the lazily filled stat memo and the
 * type-level validation. File.stat is not called here; the answer it would
 * give for the resource's path at the moment of the call is passed in as a
 * `StatOutcome`.
 */
module NoxdirStat {
  import opened Wrappers

  /** The parts of a File::Stat the plug-in reads. */
  datatype StatInfo = StatInfo(mode: nat, isDirectory: bool)

  /** What File.stat does for the path: return a stat, or raise an Errno. */
  datatype StatOutcome =
    | Found(info: StatInfo)
    | NoEntry                    // Errno::ENOENT
    | AccessDenied               // Errno::EACCES
    | OtherErrno(name: string)   // any other Errno, which `stat` does not rescue

  /** The `@stat` field: the symbol :needs_stat, or the cached stat (nil after ENOENT/EACCES). */
  datatype StatMemo = NeedsStat | Cached(stat: Option<StatInfo>)

  /** The effect of one call of `stat`. */
  datatype StatStep = StatStep(
    memo: StatMemo,                          // the memo afterwards
    result: Result<Option<StatInfo>, string>, // what it returns, or the Errno it lets through
    consulted: bool,                         // whether File.stat was called
    warned: bool)                            // whether "permission denied" was logged

  /** What one call of `stat` does from memo state `memo` when the filesystem answers `disk`. */
  function StatTransition(memo: StatMemo, disk: StatOutcome): (s: StatStep)
    ensures s.consulted <==> memo.NeedsStat?
    ensures s.warned <==> memo.NeedsStat? && disk.AccessDenied?
    ensures memo.Cached? ==> s.memo == memo && s.result == Success(memo.stat)
    ensures s.result.Failure? <==> memo.NeedsStat? && disk.OtherErrno?
    ensures s.result.Failure? ==> s.memo == NeedsStat && s.result.error == disk.name
    ensures s.result.Success? ==> s.memo == Cached(s.result.value)
    ensures memo.NeedsStat? && disk.Found? ==> s.result == Success(Some(disk.info))
    ensures memo.NeedsStat? && (disk.NoEntry? || disk.AccessDenied?) ==> s.result == Success(None)
  {
    match memo
    case Cached(st) => StatStep(memo, Success(st), false, false)
    case NeedsStat =>
      match disk
      case Found(info) => StatStep(Cached(Some(info)), Success(Some(info)), true, false)
      case NoEntry => StatStep(Cached(None), Success(None), true, false)
      case AccessDenied => StatStep(Cached(None), Success(None), true, true)
      case OtherErrno(name) => StatStep(NeedsStat, Failure(name), true, false)
  }

  /**
   * Once a stat has been cached, every later call returns that same value and
   * does not touch the filesystem, whatever the filesystem would now answer.
   */
  lemma StatIsMemoized(disk: StatOutcome, later: StatOutcome)
    requires StatTransition(NeedsStat, disk).result.Success?
    ensures var first := StatTransition(NeedsStat, disk);
            var second := StatTransition(first.memo, later);
            second.result == first.result && !second.consulted && second.memo == first.memo
  {
  }

  /** Both ENOENT and EACCES are cached as nil; only EACCES logs a warning. */
  lemma MissingAndDeniedCacheNil(memo: StatMemo)
    requires memo.NeedsStat?
    ensures StatTransition(memo, NoEntry).memo == StatTransition(memo, AccessDenied).memo == Cached(None)
    ensures !StatTransition(memo, NoEntry).warned && StatTransition(memo, AccessDenied).warned
  {
  }

  class NoxDir {
    const path: string
    var memo: StatMemo
    ghost var statCalls: nat        // how many times File.stat has been called
    ghost var accessWarnings: nat   // how many "permission denied" warnings were logged

    /** `initialize`: a new resource has not been stat-ed yet. */
    constructor (path: string)
      ensures this.path == path
      ensures memo == NeedsStat && statCalls == 0 && accessWarnings == 0
    {
      this.path := path;
      memo := NeedsStat;
      statCalls := 0;
      accessWarnings := 0;
    }

    /** `stat`: stat the path once and remember the answer. */
    method Stat(disk: StatOutcome) returns (r: Result<Option<StatInfo>, string>)
      modifies this
      ensures var step := StatTransition(old(memo), disk);
              memo == step.memo && r == step.result
              && statCalls == old(statCalls) + (if step.consulted then 1 else 0)
              && accessWarnings == old(accessWarnings) + (if step.warned then 1 else 0)
    {
      if memo.Cached? {
        return Success(memo.stat);
      }
      statCalls := statCalls + 1;
      match disk {
        case Found(info) =>
          memo := Cached(Some(info));
        case NoEntry =>
          memo := Cached(None);
        case AccessDenied =>
          accessWarnings := accessWarnings + 1;
          memo := Cached(None);
        case OtherErrno(name) =>
          return Failure(name);
      }
      r := Success(memo.stat);
    }

    /** Setting `@stat = :needs_stat`: the next `stat` asks the filesystem again. */
    method Invalidate()
      modifies this
      ensures memo == NeedsStat
      ensures statCalls == old(statCalls) && accessWarnings == old(accessWarnings)
    {
      memo := NeedsStat;
    }
  }

  /** The type's `validate`: a path is required. */
  function ValidateResource(path: Option<string>): (r: Result<(), string>)
    ensures r.Success? <==> path.Some?
    ensures r.Failure? ==> r.error == "Path is a required attribute"
  {
    if path.None? then Failure("Path is a required attribute") else Success(())
  }
}
