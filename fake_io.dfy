/**
 * The path-redirection engine of the FakeIO native module: a classifier that
 * swaps any path mentioning the installed package file for a backup copy,
 * and the two hooked entry points, `openat` and `newfstatat`, that consult it
 * before calling the original libc function.
 *
 * The originals captured at load time are passed in as function parameters:
 * each is fixed once installed, and what it does to the file system is not
 * part of this model.
 */
module FakeIO {
  import opened Wrappers
  import opened CString

  /** C `int`, as on Android. */
  newtype Int32 = x: int | -0x8000_0000 <= x < 0x8000_0000

  /** `mode_t`, a 32-bit unsigned integer on 64-bit Android. */
  newtype ModeT = x: int | 0 <= x < 0x1_0000_0000

  /** The substring that marks a path as the package file to hide. */
  const Needle: string := "base.apk"

  /** The private data directory of the game package. */
  const PackageDataDir: string := "/data/data/com.bilibili.azurlane"

  /**
   * Where the untouched original package was placed by hand:
   * "/data/data/com.bilibili.azurlane/base_orig.apk", one literal in C,
   * written here in two parts only to keep proofs about its characters short.
   */
  const RedirectTarget: string := PackageDataDir + "/base_orig.apk"

  /** `orig_openat`: dirfd, pathname, flags, mode. */
  type OpenatFn = (Int32, Option<string>, Int32, ModeT) -> Int32

  /** `orig_newfstatat`: dirfd, pathname, the caller's `struct stat*` (of type `StatBuf`), flags. */
  type NewfstatatFn<!StatBuf> = (Int32, Option<string>, StatBuf, Int32) -> Int32

  /** The path names the package file: non-null and containing `Needle` anywhere. */
  ghost predicate Watched(pathname: Option<string>)
  {
    pathname.Some? && Occurs(Needle, pathname.value)
  }

  /**
   * `redirect_if_needed`: a null path is returned as is; a path containing
   * `Needle` anywhere is replaced by `RedirectTarget`; any other path is
   * returned unchanged.
   */
  function RedirectIfNeeded(pathname: Option<string>): (r: Option<string>)
    ensures r == pathname || r == Some(RedirectTarget)
    ensures pathname.None? ==> r.None?
    ensures Watched(pathname) ==> r == Some(RedirectTarget)
    ensures !Watched(pathname) ==> r == pathname
  {
    if pathname.Some? && Strstr(pathname.value, Needle).Some? then Some(RedirectTarget) else pathname
  }

  /** The backup location does not itself mention `Needle`. */
  lemma RedirectTargetUnwatched()
    ensures !Watched(Some(RedirectTarget))
  {
    // "e." (offsets 3 and 4 of `Needle`) never appears in the target
    AbsentPairExcludesNeedle(RedirectTarget, Needle, 3);
  }

  /** No path handed on to an original function ever mentions `Needle`. */
  lemma RedirectResultUnwatched(pathname: Option<string>)
    ensures !Watched(RedirectIfNeeded(pathname))
  {
    RedirectTargetUnwatched();
  }

  /** A path is altered exactly when it mentions `Needle`. */
  lemma RedirectAltersExactlyWatched(pathname: Option<string>)
    ensures RedirectIfNeeded(pathname) != pathname <==> Watched(pathname)
  {
    RedirectTargetUnwatched();
  }

  /** Redirection is idempotent. */
  lemma RedirectIdempotent(pathname: Option<string>)
    ensures RedirectIfNeeded(RedirectIfNeeded(pathname)) == RedirectIfNeeded(pathname)
  {
    RedirectResultUnwatched(pathname);
  }

  /**
   * The test is a plain substring search with no end-of-string rule: the
   * package file itself, a directory-style sub-path and an archive-entry
   * path are all redirected, whatever surrounds `Needle`.
   */
  lemma SubPathRedirected(prefix: string, suffix: string)
    ensures RedirectIfNeeded(Some(prefix + Needle + suffix)) == Some(RedirectTarget)
  {
    var p := prefix + Needle + suffix;
    assert p[|prefix|..|prefix| + |Needle|] == Needle;
    assert MatchAt(p, Needle, |prefix|);
  }

  /** The three suffix cases, on an installed package path. */
  lemma SuffixCasesAllRedirected()
    ensures RedirectIfNeeded(Some("/data/app/example/base.apk")) == Some(RedirectTarget)
    ensures RedirectIfNeeded(Some("/data/app/example/base.apk/x")) == Some(RedirectTarget)
    ensures RedirectIfNeeded(Some("/data/app/example/base.apk!/assets/x.png")) == Some(RedirectTarget)
  {
    var whole, dir, entry := "/data/app/example/base.apk", "/data/app/example/base.apk/x", "/data/app/example/base.apk!/assets/x.png";
    assert whole[18..26] == Needle;
    assert dir[18..26] == Needle;
    assert entry[18..26] == Needle;
    assert MatchAt(whole, Needle, 18) && MatchAt(dir, Needle, 18) && MatchAt(entry, Needle, 18);
  }

  /** A split APK of the same package does not mention `Needle` and is served as is. */
  lemma SplitApkPassesThrough()
    ensures RedirectIfNeeded(Some("/data/app/example/split_config.apk"))
         == Some("/data/app/example/split_config.apk")
  {
    AbsentPairExcludesNeedle("/data/app/example/split_config.apk", Needle, 3);
  }

  /**
   * `my_openat`: calls `orig_openat` on the classified path with `dirfd`,
   * `flags` and `mode` untouched, and returns its result, errors included.
   */
  function MyOpenat(origOpenat: OpenatFn, dirfd: Int32, pathname: Option<string>, flags: Int32, mode: ModeT): (r: Int32)
    ensures Watched(pathname) ==> r == origOpenat(dirfd, Some(RedirectTarget), flags, mode)
    ensures !Watched(pathname) ==> r == origOpenat(dirfd, pathname, flags, mode)
  {
    origOpenat(dirfd, RedirectIfNeeded(pathname), flags, mode)
  }

  /**
   * `my_newfstatat`: calls `orig_newfstatat` on the classified path with
   * `dirfd`, `buf` and `flags` untouched, and returns its result.
   */
  function MyNewfstatat<StatBuf>(origNewfstatat: NewfstatatFn<StatBuf>, dirfd: Int32, pathname: Option<string>, buf: StatBuf, flags: Int32): (r: Int32)
    ensures Watched(pathname) ==> r == origNewfstatat(dirfd, Some(RedirectTarget), buf, flags)
    ensures !Watched(pathname) ==> r == origNewfstatat(dirfd, pathname, buf, flags)
  {
    origNewfstatat(dirfd, RedirectIfNeeded(pathname), buf, flags)
  }

  /**
   * The two channels agree: for every path, `openat` and `newfstatat` hand
   * their originals one and the same effective path, which is either the
   * caller's path or the backup and never mentions `Needle`.
   */
  lemma ChannelsConsultSamePath<StatBuf>(
    origOpenat: OpenatFn, origNewfstatat: NewfstatatFn<StatBuf>, pathname: Option<string>,
    openDirfd: Int32, openFlags: Int32, mode: ModeT,
    statDirfd: Int32, buf: StatBuf, statFlags: Int32)
    ensures exists effective: Option<string> ::
      && (effective == pathname || effective == Some(RedirectTarget))
      && !Watched(effective)
      && MyOpenat(origOpenat, openDirfd, pathname, openFlags, mode) == origOpenat(openDirfd, effective, openFlags, mode)
      && MyNewfstatat(origNewfstatat, statDirfd, pathname, buf, statFlags) == origNewfstatat(statDirfd, effective, buf, statFlags)
  {
    var effective := RedirectIfNeeded(pathname);
    RedirectResultUnwatched(pathname);
    assert MyOpenat(origOpenat, openDirfd, pathname, openFlags, mode) == origOpenat(openDirfd, effective, openFlags, mode);
  }
}
