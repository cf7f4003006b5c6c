/**
 * The identity key under which a noxdir resource is looked up
 * (noxdir's `self.[]`): every run of slashes becomes one slash, then one
 * trailing slash is removed, so that declarations differing only in slash
 * formatting name the same resource.
 */
module NoxdirPath {
  import opened Wrappers

  predicate NoDoubleSlash(s: string) {
    forall i :: 0 <= i < |s| - 1 ==> !(s[i] == '/' && s[i + 1] == '/')
  }

  predicate EndsWithSlash(s: string) {
    |s| > 0 && s[|s| - 1] == '/'
  }

  /** The characters of `s` other than slashes, in order. */
  function NonSlash(s: string): string {
    if |s| == 0 then ""
    else if s[0] == '/' then NonSlash(s[1..])
    else [s[0]] + NonSlash(s[1..])
  }

  /** gsub(/\/+/, '/'): a slash followed by a slash is dropped. */
  function CollapseSlashes(s: string): (r: string)
    ensures NoDoubleSlash(r)
    ensures |r| <= |s|
    ensures |s| > 0 ==> |r| > 0 && r[0] == s[0] && r[|r| - 1] == s[|s| - 1]
  {
    if |s| <= 1 then s
    else if s[0] == '/' && s[1] == '/' then CollapseSlashes(s[1..])
    else [s[0]] + CollapseSlashes(s[1..])
  }

  /** sub(/\/$/, ''): one slash at the very end is removed. */
  function StripTrailingSlash(s: string): (r: string)
    ensures r == s || r + "/" == s
    ensures r == s <==> !EndsWithSlash(s)
  {
    if EndsWithSlash(s) then s[..|s| - 1] else s
  }

  /** The key for a present path. */
  function Key(path: string): (r: string)
    ensures NoDoubleSlash(r)
    ensures !EndsWithSlash(r)
  {
    var c := CollapseSlashes(path);
    if EndsWithSlash(c) && |c| >= 2 then
      assert c[|c| - 2] != '/';
      StripTrailingSlash(c)
    else
      StripTrailingSlash(c)
  }

  /** `self.[]`: nil stays nil, a path is looked up under its key. */
  function Lookup(path: Option<string>): (r: Option<string>)
    ensures r.None? <==> path.None?
    ensures r.Some? ==> NoDoubleSlash(r.value) && !EndsWithSlash(r.value)
  {
    match path
    case None => None
    case Some(p) => Some(Key(p))
  }

  /** Collapsing removes only slashes; every other character stays, in order. */
  lemma {:induction false} CollapseKeepsNonSlash(s: string)
    ensures NonSlash(CollapseSlashes(s)) == NonSlash(s)
  {
    if |s| == 1 {
    } else if |s| > 1 {
      CollapseKeepsNonSlash(s[1..]);
      if !(s[0] == '/' && s[1] == '/') {
        var t := CollapseSlashes(s[1..]);
        assert ([s[0]] + t)[1..] == t;
      }
    }
  }

  /** Collapsing leaves a string unchanged exactly when it has no double slash. */
  lemma {:induction false} CollapseFixpoint(s: string)
    ensures CollapseSlashes(s) == s <==> NoDoubleSlash(s)
  {
    if |s| > 1 {
      CollapseFixpoint(s[1..]);
      if s[0] == '/' && s[1] == '/' {
        assert |CollapseSlashes(s)| < |s|;
      } else if NoDoubleSlash(s) {
        assert NoDoubleSlash(s[1..]) by {
          forall i | 0 <= i < |s[1..]| - 1
            ensures !(s[1..][i] == '/' && s[1..][i + 1] == '/')
          {
            assert s[1..][i] == s[i + 1] && s[1..][i + 1] == s[i + 2];
          }
        }
        assert s == [s[0]] + s[1..];
      }
    }
  }

  /** The key of a key is itself. */
  lemma KeyIdempotent(s: string)
    ensures Key(Key(s)) == Key(s)
  {
    CollapseFixpoint(Key(s));
  }

  lemma {:induction false} CollapseAllSlashes(n: nat)
    requires n > 0
    ensures CollapseSlashes(seq(n, _ => '/')) == "/"
  {
    if n > 1 {
      CollapseAllSlashes(n - 1);
      assert seq(n, _ => '/')[1..] == seq(n - 1, _ => '/');
    }
  }

  /** The root directory, written with any number of slashes, has the empty key. */
  lemma RootKey(n: nat)
    requires n > 0
    ensures Key(seq(n, _ => '/')) == ""
  {
    CollapseAllSlashes(n);
  }

  /** Doubling a slash anywhere in a path does not change its key. */
  lemma {:induction false} CollapseDoubledSlash(a: string, b: string)
    ensures CollapseSlashes(a + "//" + b) == CollapseSlashes(a + "/" + b)
  {
    var s, t := a + "//" + b, a + "/" + b;
    if |a| > 0 {
      CollapseDoubledSlash(a[1..], b);
      assert s[1..] == a[1..] + "//" + b;
      assert t[1..] == a[1..] + "/" + b;
      assert s[0] == t[0] && s[1] == t[1];
    } else {
      assert s[1..] == t;
    }
  }

  lemma DoubledSlashSameKey(a: string, b: string)
    ensures Key(a + "//" + b) == Key(a + "/" + b)
  {
    CollapseDoubledSlash(a, b);
  }

  /** One step of CollapseSlashes on a string of two or more characters. */
  lemma CollapseStep(s: string)
    requires |s| > 1
    ensures CollapseSlashes(s) == if s[0] == '/' && s[1] == '/' then CollapseSlashes(s[1..]) else [s[0]] + CollapseSlashes(s[1..])
  {
  }

  /** A trailing slash does not change a path's key. */
  lemma {:induction false} CollapseAppendSlash(s: string)
    ensures CollapseSlashes(s + "/") == if EndsWithSlash(s) then CollapseSlashes(s) else CollapseSlashes(s) + "/"
  {
    var t := s + "/";
    if |s| == 1 {
      assert t == [s[0], '/'];
      assert t[1..] == "/";
      CollapseStep(t);
    } else if |s| > 1 {
      var u := s[1..];
      assert t[1..] == u + "/";
      assert t[0] == s[0] && t[1] == s[1];
      assert EndsWithSlash(s) == EndsWithSlash(u);
      CollapseAppendSlash(u);
      CollapseStep(t);
      CollapseStep(s);
      var cu := CollapseSlashes(u);
      if !(s[0] == '/' && s[1] == '/') && !EndsWithSlash(u) {
        assert [s[0]] + (cu + "/") == ([s[0]] + cu) + "/";
      }
    }
  }

  lemma TrailingSlashSameKey(s: string)
    ensures Key(s + "/") == Key(s)
  {
    CollapseAppendSlash(s);
    var c := CollapseSlashes(s);
    if !EndsWithSlash(s) {
      assert (c + "/")[..|c|] == c;
      assert |s| > 0 ==> c[|c| - 1] == s[|s| - 1];
    }
  }
}
