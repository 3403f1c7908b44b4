/**
 * `__mkntpathat`: turns a UTF-8 path relative to a directory descriptor
 * into the UTF-16 path handed to the Win32 file functions, written into a
 * caller's buffer of at least `PATH_MAX` code units.
 *
 * The callees this file relies on are inputs: whether the path is valid
 * UTF-8 (`isutf8`), the outcome of the conversion (`__mkntpath2`), whether
 * the descriptor is an open file (`__isfdkind`), the directory name Windows
 * reports for it (`GetFinalPathNameByHandle`) with the errno `__winerr`
 * derives from a failure, and the attribute word of a path
 * (`GetFileAttributesW`).
 */
module MkNtPathAt {
  import opened Common

  newtype char16 = x: int | 0 <= x < 0x1_0000

  const PATH_MAX: int := 1024
  const AT_FDCWD: int := -100

  const NUL: char16 := 0
  const BACKSLASH: char16 := 0x5C
  const COLON: char16 := 0x3A

  const INVALID_FILE_ATTRIBUTES: bv32 := 0xFFFF_FFFF
  const FILE_ATTRIBUTE_DIRECTORY: bv32 := 0x10
  const FILE_ATTRIBUTE_REPARSE_POINT: bv32 := 0x400

  /** The errno a failing call leaves; `Raised` is one a callee set. */
  datatype Errno = EILSEQ | ENOENT | EBADF | ENAMETOOLONG | ENOTDIR | Raised(code: int)

  // ---------------------------------------------------------------------
  // Specification
  // ---------------------------------------------------------------------

  /**
   * `__mkntpathat_impl` on values: `converted` is what the conversion
   * produced (without its NUL), `dir` the name reported for `dirfd`, empty
   * when the query failed; a name at least as long as the buffer stands for
   * the size Windows reports when the buffer is too small.
   */
  function Joined(dirfd: int, utf8: bool, converted: Result<seq<char16>, Errno>, dirIsFile: bool,
                  dir: seq<char16>, winerr: Errno): Result<seq<char16>, Errno>
  {
    if !utf8 then Err(EILSEQ)
    else match converted
      case Err(e) => Err(e)
      case Ok(f) =>
        if |f| == 0 then Err(ENOENT)
        else if f[0] != BACKSLASH && dirfd != AT_FDCWD then
          if !dirIsFile then Err(EBADF)
          else if |dir| == 0 then Err(winerr)
          else if |dir| + 1 + |f| + 1 > PATH_MAX then Err(ENAMETOOLONG)
          else Ok(dir + [BACKSLASH] + f)
        else Ok(f)
  }

  /** Whether a path ending in a backslash loses it: all but `\` and a drive root `X:\`. */
  predicate DropsSeparator(p: seq<char16>) {
    |p| > 1 && p[|p| - 1] == BACKSLASH && !(|p| == 3 && p[1] == COLON)
  }

  function Strip(p: seq<char16>): (q: seq<char16>) {
    if DropsSeparator(p) then p[..|p| - 1] else p
  }

  /** A path whose target exists and is neither a directory nor a reparse point. */
  predicate NotDirectory(fattr: bv32) {
    fattr != INVALID_FILE_ATTRIBUTES
    && fattr & FILE_ATTRIBUTE_REPARSE_POINT == 0
    && fattr & FILE_ATTRIBUTE_DIRECTORY == 0
  }

  /** `__mkntpathat` on values. */
  function Resolved(dirfd: int, utf8: bool, converted: Result<seq<char16>, Errno>, dirIsFile: bool,
                    dir: seq<char16>, winerr: Errno, attributes: seq<char16> -> bv32): Result<seq<char16>, Errno>
  {
    match Joined(dirfd, utf8, converted, dirIsFile, dir, winerr)
    case Err(e) => Err(e)
    case Ok(p) =>
      if |p| > 0 && p[|p| - 1] == BACKSLASH then
        if NotDirectory(attributes(Strip(p))) then Err(ENOTDIR) else Ok(Strip(p))
      else Ok(p)
  }

  /** The return value of a call whose result is `res`: the length, or the errno with -1. */
  function Length(res: Result<seq<char16>, Errno>): Result<nat, Errno> {
    match res
    case Ok(p) => Ok(|p|)
    case Err(e) => Err(e)
  }

  // ---------------------------------------------------------------------
  // Properties
  // ---------------------------------------------------------------------

  /**
   * The checks come in the order of the source: an invalid UTF-8 path fails
   * with EILSEQ whatever else holds, a failed conversion with its own errno,
   * an empty one with ENOENT, and only a relative path with a real
   * descriptor ever looks at the descriptor: EBADF when it is not a file,
   * the system's own error when its name is not reported, ENAMETOOLONG when
   * the name, a backslash, the path and a NUL overflow the buffer.
   */
  lemma JoinedErrorOrder(dirfd: int, utf8: bool, converted: Result<seq<char16>, Errno>, dirIsFile: bool,
                         dir: seq<char16>, winerr: Errno)
    ensures !utf8 ==> Joined(dirfd, utf8, converted, dirIsFile, dir, winerr) == Err(EILSEQ)
    ensures utf8 && converted.Err? ==> Joined(dirfd, utf8, converted, dirIsFile, dir, winerr) == Err(converted.error)
    ensures utf8 && converted == Ok([]) ==> Joined(dirfd, utf8, converted, dirIsFile, dir, winerr) == Err(ENOENT)
    ensures utf8 && converted.Ok? && |converted.value| > 0
              && (converted.value[0] == BACKSLASH || dirfd == AT_FDCWD)
            ==> Joined(dirfd, utf8, converted, dirIsFile, dir, winerr) == converted
    ensures utf8 && converted.Ok? && |converted.value| > 0
              && converted.value[0] != BACKSLASH && dirfd != AT_FDCWD && !dirIsFile
            ==> Joined(dirfd, utf8, converted, dirIsFile, dir, winerr) == Err(EBADF)
    ensures utf8 && converted.Ok? && |converted.value| > 0
              && converted.value[0] != BACKSLASH && dirfd != AT_FDCWD && dirIsFile && |dir| == 0
            ==> Joined(dirfd, utf8, converted, dirIsFile, dir, winerr) == Err(winerr)
    ensures utf8 && converted.Ok? && |converted.value| > 0
              && converted.value[0] != BACKSLASH && dirfd != AT_FDCWD && dirIsFile && 0 < |dir|
              && |dir| + 1 + |converted.value| + 1 > PATH_MAX
            ==> Joined(dirfd, utf8, converted, dirIsFile, dir, winerr) == Err(ENAMETOOLONG)
  {
  }

  /**
   * The call succeeds exactly when the path converts to something non-empty
   * and, when it is relative to a descriptor, the descriptor is a file whose
   * name was reported and leaves room for the separator, the path and the NUL.
   * The result is then the path itself, or the directory, a backslash and
   * the path; either way it fits the buffer with its NUL.
   */
  lemma JoinedSucceeds(dirfd: int, utf8: bool, converted: Result<seq<char16>, Errno>, dirIsFile: bool,
                       dir: seq<char16>, winerr: Errno)
    requires converted.Ok? ==> |converted.value| < PATH_MAX
    ensures var res := Joined(dirfd, utf8, converted, dirIsFile, dir, winerr);
      res.Ok? <==>
        && utf8 && converted.Ok? && |converted.value| > 0
        && (converted.value[0] != BACKSLASH && dirfd != AT_FDCWD ==>
              dirIsFile && 0 < |dir| && |dir| + |converted.value| + 2 <= PATH_MAX)
    ensures var res := Joined(dirfd, utf8, converted, dirIsFile, dir, winerr);
      res.Ok? ==>
        && 0 < |res.value| < PATH_MAX
        && (res.value == converted.value
            || (res.value == dir + [BACKSLASH] + converted.value
                && |res.value| == |dir| + 1 + |converted.value|
                && res.value[|dir|] == BACKSLASH))
  {
  }

  /**
   * A path that does not start with a backslash, resolved against a
   * directory descriptor, keeps the directory as its prefix and itself as
   * the suffix after the separator.
   */
  lemma {:induction false} JoinedKeepsParts(dirfd: int, f: seq<char16>, dir: seq<char16>, winerr: Errno)
    requires |f| > 0 && f[0] != BACKSLASH && dirfd != AT_FDCWD
    requires Joined(dirfd, true, Ok(f), true, dir, winerr).Ok?
    ensures var p := Joined(dirfd, true, Ok(f), true, dir, winerr).value;
      p[..|dir|] == dir && p[|dir|] == BACKSLASH && p[|dir| + 1..] == f
  {
    var p := dir + [BACKSLASH] + f;
    assert p[..|dir|] == dir;
    assert p[|dir| + 1..] == f;
  }

  /**
   * Stripping removes one trailing backslash and nothing else, and never
   * touches `\` or a drive root.
   */
  lemma StripRemovesSeparator(p: seq<char16>)
    ensures Strip(p) == p || (Strip(p) + [BACKSLASH] == p && |p| > 1)
    ensures Strip(p) != p <==> DropsSeparator(p)
    ensures |p| == 3 && p[1] == COLON ==> Strip(p) == p
    ensures p == [BACKSLASH] ==> Strip(p) == p
  {
    if DropsSeparator(p) {
      assert p[..|p| - 1] + [BACKSLASH] == p;
    }
  }

  /**
   * ENOTDIR is reported exactly for a successfully joined path ending in a
   * backslash whose (stripped) target exists and is neither a directory nor
   * a reparse point; every other outcome of the join passes through, with
   * only the separator stripped.
   */
  lemma ResolvedNotDir(dirfd: int, utf8: bool, converted: Result<seq<char16>, Errno>, dirIsFile: bool,
                       dir: seq<char16>, winerr: Errno, attributes: seq<char16> -> bv32)
    ensures var j := Joined(dirfd, utf8, converted, dirIsFile, dir, winerr);
      Resolved(dirfd, utf8, converted, dirIsFile, dir, winerr, attributes) == Err(ENOTDIR)
      <==> (j == Err(ENOTDIR)
            || (j.Ok? && |j.value| > 0 && j.value[|j.value| - 1] == BACKSLASH
                && NotDirectory(attributes(Strip(j.value)))))
    ensures var j := Joined(dirfd, utf8, converted, dirIsFile, dir, winerr);
      j.Err? ==> Resolved(dirfd, utf8, converted, dirIsFile, dir, winerr, attributes) == j
    ensures var j := Joined(dirfd, utf8, converted, dirIsFile, dir, winerr);
      var r := Resolved(dirfd, utf8, converted, dirIsFile, dir, winerr, attributes);
      r.Ok? ==> j.Ok? && r.value == Strip(j.value)
  {
  }

  /** A resolved path is never empty, fits the buffer, and is the joined one less at most its last unit. */
  lemma ResolvedFits(dirfd: int, utf8: bool, converted: Result<seq<char16>, Errno>, dirIsFile: bool,
                     dir: seq<char16>, winerr: Errno, attributes: seq<char16> -> bv32)
    requires converted.Ok? ==> |converted.value| < PATH_MAX
    ensures var r := Resolved(dirfd, utf8, converted, dirIsFile, dir, winerr, attributes);
      var j := Joined(dirfd, utf8, converted, dirIsFile, dir, winerr);
      r.Ok? ==>
        && 0 < |r.value| < PATH_MAX
        && |j.value| - 1 <= |r.value| <= |j.value|
        && r.value == j.value[..|r.value|]
  {
    JoinedSucceeds(dirfd, utf8, converted, dirIsFile, dir, winerr);
    var j := Joined(dirfd, utf8, converted, dirIsFile, dir, winerr);
    if j.Ok? {
      StripRemovesSeparator(j.value);
    }
  }

  // ---------------------------------------------------------------------
  // The buffers
  // ---------------------------------------------------------------------

  /** A callee writing `s` and its NUL at the start of `buf`. */
  method Store(buf: array<char16>, s: seq<char16>)
    requires |s| < buf.Length
    modifies buf
    ensures buf[..|s| + 1] == s + [NUL]
    ensures buf[|s| + 1..] == old(buf[|s| + 1..])
  {
    var i := 0;
    while i < |s|
      invariant 0 <= i <= |s|
      invariant forall k | 0 <= k < i :: buf[k] == s[k]
      invariant forall k | i <= k < buf.Length :: buf[k] == old(buf[k])
    {
      buf[i] := s[i];
      i := i + 1;
    }
    buf[i] := NUL;
    assert buf[..|s| + 1] == s + [NUL];
  }

  /** `memcpy(dst + at, src, n * sizeof(char16_t))` between two distinct buffers. */
  method Copy(src: array<char16>, dst: array<char16>, at: nat, n: nat)
    requires src != dst && n <= src.Length && at + n <= dst.Length
    modifies dst
    ensures dst[..at] == old(dst[..at])
    ensures dst[at..at + n] == src[..n]
    ensures dst[at + n..] == old(dst[at + n..])
  {
    var i := 0;
    while i < n
      invariant 0 <= i <= n
      invariant forall k | 0 <= k < at :: dst[k] == old(dst[k])
      invariant forall k | 0 <= k < i :: dst[at + k] == src[k]
      invariant forall k | at + i <= k < dst.Length :: dst[k] == old(dst[k])
    {
      dst[at + i] := src[i];
      i := i + 1;
    }
    assert dst[at..at + n] == src[..n];
  }

  // ---------------------------------------------------------------------
  // The two functions
  // ---------------------------------------------------------------------

  /**
   * Appends a backslash and the converted path (with its NUL) to the
   * directory name in `buf`, then copies the whole back into `file`.
   */
  method JoinInto(file: array<char16>, buf: array<char16>, dir: seq<char16>, f: seq<char16>)
    requires file != buf && file.Length >= PATH_MAX && buf.Length == PATH_MAX
    requires 0 < |dir| && |dir| + 1 + |f| + 1 <= PATH_MAX
    requires buf[..|dir|] == dir && file[..|f| + 1] == f + [NUL]
    modifies file, buf
    ensures file[..|dir| + 1 + |f| + 1] == dir + [BACKSLASH] + f + [NUL]
  {
    var dirlen, filelen := |dir|, |f|;
    buf[dirlen] := BACKSLASH;
    Copy(file, buf, dirlen + 1, filelen + 1);
    Copy(buf, file, 0, dirlen + 1 + filelen + 1);
    JoinedBuffer(buf[..], dir, f);
  }

  /** The directory buffer after the separator and the path were copied in. */
  lemma JoinedBuffer(buf: seq<char16>, dir: seq<char16>, f: seq<char16>)
    requires |dir| + 1 + |f| + 1 <= |buf|
    requires buf[..|dir|] == dir && buf[|dir|] == BACKSLASH
    requires buf[|dir| + 1..|dir| + 1 + |f| + 1] == f + [NUL]
    ensures buf[..|dir| + 1 + |f| + 1] == dir + [BACKSLASH] + f + [NUL]
  {
    var n := |dir| + 1 + |f| + 1;
    assert buf[..n] == buf[..|dir|] + [buf[|dir|]] + buf[|dir| + 1..n];
  }

  /**
   * `__mkntpathat_impl`: converts the path into `file` and, for a relative
   * path with a directory descriptor, rewrites `file` as the directory
   * name, a backslash and the path, with its NUL.
   */
  method MkNtPathAtImpl(dirfd: int, utf8: bool, converted: Result<seq<char16>, Errno>, dirIsFile: bool,
                        dir: seq<char16>, winerr: Errno, file: array<char16>)
    returns (r: Result<nat, Errno>)
    requires file.Length >= PATH_MAX
    requires converted.Ok? ==> |converted.value| < PATH_MAX
    modifies file
    ensures r == Length(Joined(dirfd, utf8, converted, dirIsFile, dir, winerr))
    ensures r.Ok? ==> file[..r.value + 1] == Joined(dirfd, utf8, converted, dirIsFile, dir, winerr).value + [NUL]
    ensures !utf8 || converted.Err? ==> unchanged(file)
  {
    if !utf8 {
      return Err(EILSEQ);
    }
    if converted.Err? {
      return Err(converted.error);
    }
    var f := converted.value;
    var filelen := |f|;
    Store(file, f);
    if filelen == 0 {
      return Err(ENOENT);
    }
    assert file[0] == f[0];
    if file[0] != BACKSLASH && dirfd != AT_FDCWD {
      if !dirIsFile {
        return Err(EBADF);
      }
      var buf := new char16[PATH_MAX];
      var dirlen := |dir|;
      if 0 < dirlen < PATH_MAX {
        Store(buf, dir);
      }
      if dirlen == 0 {
        return Err(winerr);
      }
      if dirlen + 1 + filelen + 1 > PATH_MAX {
        return Err(ENAMETOOLONG);
      }
      JoinInto(file, buf, dir, f);
      return Ok(dirlen + 1 + filelen);
    }
    return Ok(filelen);
  }

  /**
   * `file[--len] = 0` unless the path in `file` is `\` or a drive root:
   * the NUL-terminated path of length `len` becomes its stripped form.
   */
  method StripSeparator(file: array<char16>, len: nat) returns (len': nat)
    requires len < file.Length && file[len] == NUL
    modifies file
    ensures len' <= len
    ensures file[..len' + 1] == Strip(old(file[..len])) + [NUL]
    ensures file[len' + 1..] == old(file[len' + 1..])
  {
    ghost var p := file[..len];
    assert file[..len + 1] == p + [NUL];
    len' := len;
    if len > 1 && file[len - 1] == BACKSLASH && !(len == 3 && file[1] == COLON) {
      len' := len - 1;
      file[len'] := NUL;
      assert file[..len'] == p[..len'];
      assert file[..len' + 1] == p[..len'] + [NUL];
    }
  }

  /**
   * `__mkntpathat`: the converted path, with a trailing backslash stripped
   * (except on `\` and drive roots) and ENOTDIR when the path so named is
   * an existing non-directory.
   */
  method MkNtPathAt(dirfd: int, utf8: bool, converted: Result<seq<char16>, Errno>, dirIsFile: bool,
                    dir: seq<char16>, winerr: Errno, attributes: seq<char16> -> bv32, file: array<char16>)
    returns (r: Result<nat, Errno>)
    requires file.Length >= PATH_MAX
    requires converted.Ok? ==> |converted.value| < PATH_MAX
    modifies file
    ensures r == Length(Resolved(dirfd, utf8, converted, dirIsFile, dir, winerr, attributes))
    ensures r.Ok? ==>
      file[..r.value + 1] == Resolved(dirfd, utf8, converted, dirIsFile, dir, winerr, attributes).value + [NUL]
  {
    var res := MkNtPathAtImpl(dirfd, utf8, converted, dirIsFile, dir, winerr, file);
    if res.Err? {
      return res;
    }
    ghost var p := Joined(dirfd, utf8, converted, dirIsFile, dir, winerr).value;
    var len := res.value;
    assert file[..len] == p;
    if len > 0 && file[len - 1] == BACKSLASH {
      len := StripSeparator(file, len);
      assert file[..len] == file[..len + 1][..len] == Strip(p);
      var fattr := attributes(file[..len]);
      if fattr != INVALID_FILE_ATTRIBUTES
        && fattr & FILE_ATTRIBUTE_REPARSE_POINT == 0
        && fattr & FILE_ATTRIBUTE_DIRECTORY == 0
      {
        return Err(ENOTDIR);
      }
    }
    return Ok(len);
  }
}
