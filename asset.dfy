/**
 * The asset cache of the turfwar server (`struct Asset`, `LoadAsset`,
 * `ReloadAsset`, `Update`): each slot holds one generation of content — raw
 * bytes, their gzip member, the modification time and its HTTP date text —
 * and is replaced wholesale. A new generation is built completely before the
 * swap, so a slot only ever holds a generation whose parts belong together.
 *
 * The per-asset lock and the freeing of superseded buffers are not modelled;
 * file-system calls and the foreign routines are inputs.
 */
module Assets {
  import opened Common
  import opened Bytes
  import opened GzipFrame

  /** `struct timespec`. */
  datatype Timespec = Timespec(sec: int, nsec: int)

  /** `_timespec_gt`: strictly later, seconds first, then nanoseconds. */
  predicate TimespecGt(a: Timespec, b: Timespec) {
    a.sec > b.sec || (a.sec == b.sec && a.nsec > b.nsec)
  }

  /** The foreign routines a generation is built with. */
  datatype Env = Env(
    deflate: seq<uint8> -> seq<uint8>,   // zlib raw deflate
    crc32: seq<uint8> -> uint32,         // crc32_z
    httpDate: int -> seq<uint8>)         // FormatUnixHttpDateTime

  /** One generation of an asset's content (`data`, `gzip`, `mtim`, `lastmod`). */
  datatype Generation = Generation(data: seq<uint8>, gzip: seq<uint8>, mtim: Timespec, lastmod: seq<uint8>)

  /** The generation built from `data` last modified at `mtim`. */
  function Build(env: Env, data: seq<uint8>, mtim: Timespec): (g: Generation)
    ensures ParseMember(g.gzip) == Some(Member(env.deflate(data), env.crc32(data), (|data| % TWO32) as uint32))
  {
    ParseGzip(data, env.deflate, env.crc32);
    Generation(data, Gzip(data, env.deflate, env.crc32), mtim, env.httpDate(mtim.sec))
  }

  /** A generation whose parts belong together: the gzip member and date text are those of its data and time. */
  predicate Coherent(env: Env, g: Generation) {
    g.gzip == Gzip(g.data, env.deflate, env.crc32) && g.lastmod == env.httpDate(g.mtim.sec)
  }

  /** What a generator such as `GenerateScore` fills in: type, cache policy and content. */
  datatype Built = Built(contentType: seq<uint8>, cache: seq<uint8>, gen: Generation)

  /** What `read(fd, data, st_size)` returned. */
  datatype ReadResult = ReadFailed | ReadBytes(bytes: seq<uint8>)

  /** What the file system answers to `ReloadAsset`'s `open`, `fstat`, `malloc` and `read`. */
  datatype FileProbe =
    | OpenFailed
    | StatFailed
    | Opened(mtim: Timespec, size: nat, mallocOk: bool, read: ReadResult)

  /**
   * The outcome of `ReloadAsset` on a slot holding `g`: whether it reports
   * success, and the generation the slot holds afterwards.
   */
  function ReloadSpec(env: Env, g: Generation, probe: FileProbe): (bool, Generation) {
    match probe
    case OpenFailed => (false, g)
    case StatFailed => (false, g)
    case Opened(mtim, size, mallocOk, read) =>
      if !(TimespecGt(mtim, g.mtim) && mallocOk) then (true, g)
      else match read
        case ReadFailed => (false, g)
        case ReadBytes(bytes) =>
          if |bytes| != size then (false, g) else (true, Build(env, bytes, mtim))
  }

  const DEFAULT_CACHE: seq<uint8> := Ascii("max-age=3600, must-revalidate")

  class Asset {
    var path: seq<uint8>
    var contentType: seq<uint8>
    var cache: seq<uint8>
    var gen: Generation

    /** `LoadAsset(path, type)` given what `stat` and `xslurp` returned. */
    constructor Load(env: Env, path: seq<uint8>, contentType: seq<uint8>, mtim: Timespec, contents: seq<uint8>)
      ensures this.path == path && this.contentType == contentType && cache == DEFAULT_CACHE
      ensures gen == Build(env, contents, mtim)
      ensures Coherent(env, gen)
    {
      this.path := path;
      this.contentType := contentType;
      cache := DEFAULT_CACHE;
      gen := Build(env, contents, mtim);
    }

    /**
     * `Update(a, gen)`: when the generator succeeds its content, gzip member,
     * time and date text replace the slot's; the path, content type and cache
     * policy stay, even though the generator filled in its own. When the
     * generator fails nothing changes.
     */
    method Update(generated: Option<Built>)
      modifies this
      ensures path == old(path) && contentType == old(contentType) && cache == old(cache)
      ensures gen == if generated.Some? then generated.value.gen else old(gen)
      ensures forall env: Env ::
        Coherent(env, old(gen)) && (generated.Some? ==> Coherent(env, generated.value.gen)) ==> Coherent(env, gen)
    {
      if generated.Some? {
        var t := generated.value;
        gen := Generation(t.gen.data, t.gen.gzip, t.gen.mtim, t.gen.lastmod);
      }
    }

    /**
     * `ReloadAsset(a)`: re-reads the file only when its modification time is
     * strictly later than the slot's and the buffer could be allocated; an
     * open, stat or read failure and a short read report false and leave the
     * slot as it was.
     */
    method Reload(env: Env, probe: FileProbe) returns (ok: bool)
      modifies this
      ensures path == old(path) && contentType == old(contentType) && cache == old(cache)
      ensures (ok, gen) == ReloadSpec(env, old(gen), probe)
    {
      match probe {
        case OpenFailed =>
          return false;
        case StatFailed =>
          return false;
        case Opened(mtim, size, mallocOk, read) =>
          if TimespecGt(mtim, gen.mtim) && mallocOk {
            var lastmod := env.httpDate(mtim.sec);
            match read {
              case ReadFailed =>
                return false;
              case ReadBytes(bytes) =>
                if |bytes| != size {
                  return false;
                }
                var gzip := Gzip(bytes, env.deflate, env.crc32);
                gen := Generation(bytes, gzip, mtim, lastmod);
            }
          }
          return true;
      }
    }
  }

  /** A failed reload never changes the slot. */
  lemma ReloadFailureKeeps(env: Env, g: Generation, probe: FileProbe)
    ensures !ReloadSpec(env, g, probe).0 ==> ReloadSpec(env, g, probe).1 == g
  {
  }

  /** The slot changes only for a file strictly newer than the slot's generation, read in full. */
  lemma ReloadOnlyWhenNewer(env: Env, g: Generation, probe: FileProbe)
    requires ReloadSpec(env, g, probe).1 != g
    ensures probe.Opened? && TimespecGt(probe.mtim, g.mtim) && probe.mallocOk
    ensures probe.read.ReadBytes? && |probe.read.bytes| == probe.size
    ensures ReloadSpec(env, g, probe).1.data == probe.read.bytes
    ensures ReloadSpec(env, g, probe).1.mtim == probe.mtim
  {
  }

  /**
   * A newer file that was allocated for but could not be read in full is a
   * failure, and the slot keeps the generation it had.
   */
  lemma ReloadReadFailure(env: Env, g: Generation, probe: FileProbe)
    requires probe.Opened? && TimespecGt(probe.mtim, g.mtim) && probe.mallocOk
    requires probe.read.ReadFailed? || |probe.read.bytes| != probe.size
    ensures ReloadSpec(env, g, probe) == (false, g)
  {
  }

  /**
   * A file that is not strictly newer than the slot, or whose buffer could
   * not be allocated, is a success that leaves the slot as it was.
   */
  lemma ReloadNotNewer(env: Env, g: Generation, probe: FileProbe)
    requires probe.Opened? && !(TimespecGt(probe.mtim, g.mtim) && probe.mallocOk)
    ensures ReloadSpec(env, g, probe) == (true, g)
  {
  }

  /** Reloading never moves a slot's modification time backwards. */
  lemma ReloadMonotone(env: Env, g: Generation, probe: FileProbe)
    ensures var g' := ReloadSpec(env, g, probe).1; g' == g || TimespecGt(g'.mtim, g.mtim)
  {
  }

  /**
   * The reload swap never mixes generations: a coherent slot stays coherent
   * whatever the file system answers.
   */
  lemma SwapKeepsCoherence(env: Env, g: Generation, probe: FileProbe)
    requires Coherent(env, g)
    ensures Coherent(env, ReloadSpec(env, g, probe).1)
  {
  }
}
