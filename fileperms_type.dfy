/**
 * The `fileperms` type's parameter checks. The platform is given as the two
 * feature flags `posix` and `windows`. Each path pattern is anchored at the
 * start of the string.
 */
module FilepermsType {
  import opened Wrappers

  /** `value =~ /^\//`. */
  predicate PosixAbsolute(value: string) {
    |value| > 0 && value[0] == '/'
  }

  /** `value =~ /^.:\//`: one character other than a newline, then ":/". */
  predicate DriveAbsolute(value: string) {
    |value| >= 3 && value[0] != '\n' && value[1] == ':' && value[2] == '/'
  }

  predicate NoSlash(s: string) {
    forall i :: 0 <= i < |s| ==> s[i] != '/'
  }

  /**
   * The pattern `/^\/\/[^\/]+\/[^\/]+/` read literally: "//", a non-empty
   * slash-free host ending at position h, "/", and at least one share
   * character that is not a slash (whatever follows is not looked at).
   */
  ghost predicate UncPattern(value: string) {
    exists h :: 3 <= h < |value| - 1 && value[..2] == "//" && NoSlash(value[2..h])
                && value[h] == '/' && value[h + 1] != '/'
  }

  /** Index of the first slash in s, or |s| when there is none. */
  function FirstSlash(s: string): (k: nat)
    ensures k <= |s|
    ensures NoSlash(s[..k])
    ensures k < |s| ==> s[k] == '/'
  {
    if |s| == 0 then 0
    else if s[0] == '/' then 0
    else
      var k := 1 + FirstSlash(s[1..]);
      assert s[..k] == [s[0]] + s[1..][..k - 1];
      k
  }

  /** The UNC form, decided by locating the slash that ends the host. */
  predicate UncAbsolute(value: string)
    ensures UncAbsolute(value) <==> UncPattern(value)
  {
    |value| >= 2 && value[..2] == "//" &&
    var h := 2 + FirstSlash(value[2..]);
    var ok := 3 <= h < |value| - 1 && value[h + 1] != '/';
    UncMatchesPattern(value, h);
    ok
  }

  /** The host of a match can only end at the first slash after "//". */
  lemma UncMatchesPattern(value: string, h: nat)
    requires |value| >= 2 && value[..2] == "//" && h == 2 + FirstSlash(value[2..])
    ensures UncPattern(value) <==> 3 <= h < |value| - 1 && value[h + 1] != '/'
  {
    var rest := value[2..];
    if 3 <= h < |value| - 1 && value[h + 1] != '/' {
      assert value[2..h] == rest[..h - 2];
      assert value[h] == rest[h - 2];
    }
    if UncPattern(value) {
      var h' :| 3 <= h' < |value| - 1 && value[..2] == "//" && NoSlash(value[2..h'])
                && value[h'] == '/' && value[h' + 1] != '/';
      if h < h' {
        assert value[2..h'][h - 2] == value[h];
        assert rest[h - 2] == value[h];
      } else if h' < h {
        assert value[h'] == rest[..h - 2][h' - 2];
      }
    }
  }

  /** The message raised for a path that is not fully qualified. */
  function NotQualified(value: string): string {
    "File paths must be fully qualified, not '" + value + "'"
  }

  /** The `path` parameter's `validate`. */
  function ValidatePath(value: string, posix: bool, windows: bool): (r: Result<(), string>)
    ensures r.Success? <==> (posix && PosixAbsolute(value))
                            || (windows && (DriveAbsolute(value) || UncPattern(value)))
    ensures r.Failure? ==> r.error == NotQualified(value)
  {
    if (posix && PosixAbsolute(value)) || (windows && (DriveAbsolute(value) || UncAbsolute(value))) then Success(())
    else Failure(NotQualified(value))
  }

  /** On neither platform every path is refused, with a message that quotes it. */
  lemma NoPlatformRejects(value: string)
    ensures ValidatePath(value, false, false) == Failure(NotQualified(value))
    ensures var m := NotQualified(value); m[|m| - |value| - 1..|m| - 1] == value
  {
  }

  lemma {:induction false} FirstSlashAfter(host: string, tail: string)
    requires NoSlash(host)
    ensures FirstSlash(host + "/" + tail) == |host|
  {
    if |host| > 0 {
      FirstSlashAfter(host[1..], tail);
      assert (host + "/" + tail)[1..] == host[1..] + "/" + tail;
    }
  }

  /** "//host/share" and anything after it are accepted on Windows. */
  lemma UncAccepted(host: string, share: string, tail: string)
    requires |host| > 0 && NoSlash(host) && |share| > 0 && share[0] != '/'
    ensures ValidatePath("//" + host + "/" + share + tail, false, true).Success?
  {
    var v := "//" + host + "/" + share + tail;
    assert v[..2] == "//";
    assert v[2..] == host + "/" + (share + tail);
    FirstSlashAfter(host, share + tail);
    assert v[|host| + 3] == share[0];
  }

  /** An empty host, or a share that is missing or starts with a slash, is refused. */
  lemma UncRefused(host: string, tail: string)
    requires NoSlash(host)
    requires |host| == 0 || tail == "" || tail[0] == '/'
    ensures !UncPattern("//" + host + "/" + tail)
  {
    var v := "//" + host + "/" + tail;
    assert v[..2] == "//";
    assert v[2..] == host + "/" + tail;
    FirstSlashAfter(host, tail);
    assert UncAbsolute(v) == UncPattern(v);
    if |host| > 0 && tail != "" {
      assert v[|host| + 3] == tail[0];
    }
  }

  /** The type's `validate`: both `path` and `perms` must be given. */
  function ValidateResource(perms: Option<string>, path: Option<string>): (r: Result<(), string>)
    ensures r.Success? <==> perms.Some? && path.Some?
    ensures r.Failure? ==> r.error == "Both path and perms are required attributes"
  {
    if perms.Some? && path.Some? then Success(())
    else Failure("Both path and perms are required attributes")
  }
}
