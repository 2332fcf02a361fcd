/** The display cache of the directory scan. Slices are arrays here, because the point is which
    memory the cache shares with its callers. One mutex makes every operation atomic. */
module ScanCache {
  import opened Options

  const SCAN_SECONDS := 30

  datatype Project = Project(key: string, name: string, file: string, dir: string, images: array<string>, nested: bool)

  /** A project with its image list as a value. */
  datatype Shown = Shown(key: string, name: string, file: string, dir: string, images: seq<string>, nested: bool)

  function ImagesOf(a: array<Project>): set<object>
    reads a
  {
    set i | 0 <= i < a.Length :: a[i].images
  }

  /** All the memory of a result. */
  ghost function Memory(a: array<Project>): set<object>
    reads a
  {
    {a} + ImagesOf(a)
  }

  function Show(p: Project): Shown
    reads p.images
  {
    Shown(p.key, p.name, p.file, p.dir, p.images[..], p.nested)
  }

  ghost function View(a: array<Project>): (v: seq<Shown>)
    reads a, ImagesOf(a)
    ensures |v| == a.Length
  {
    seq(a.Length, i requires 0 <= i < a.Length reads a, ImagesOf(a) => Show(a[i]))
  }

  /** A finished scan: when its result was taken over, and what it was. */
  datatype ScanRecord = ScanRecord(finished: int, result: seq<Shown>)

  /** Everything outside: the clock, which never goes back, and the disk. */
  class World {
    var now: int
    /** All scans the cache has made, in order. */
    ghost var scans: seq<ScanRecord>

    constructor () {}

    method Now() returns (t: int)
      modifies this`now
      ensures t == now >= old(now)
    {
      var passed: nat :| passed >= 0;
      now := now + passed;
      t := now;
    }

    /** A walk over the disk: fails, or returns newly allocated memory with anything in it. */
    method Scan() returns (r: Option<array<Project>>)
      ensures r.Some? ==> fresh(Memory(r.value))
    {
      var failed: bool := *;
      if failed {
        return None;
      }
      var n: nat :| n >= 0;
      var nothing := new string[0];
      var a := new Project[n](_ => Project("", "", "", "", nothing, false));
      for i := 0 to n
        invariant fresh(a) && fresh(nothing) && forall j :: 0 <= j < n ==> fresh(a[j].images)
      {
        var m: nat :| m >= 0;
        var images := new string[m];
        var key, name, file, dir: string := *, *, *, *;
        var nested: bool := *;
        a[i] := Project(key, name, file, dir, images, nested);
      }
      r := Some(a);
    }
  }

  class Discovery {
    const world: World
    var cached: array<Project>
    var cachedAt: Option<int>
    /** The scan that filled the cache, and the first scan begun since the last Invalidate. */
    ghost var source: nat
    ghost var mark: nat

    ghost predicate Valid()
      reads this, world, Memory(cached)
    {
      && (world as object) !in Memory(cached) && (this as object) !in Memory(cached)
      && mark <= |world.scans|
      && (cachedAt.Some? ==>
            && mark <= source < |world.scans|
            && cachedAt.value == world.scans[source].finished <= world.now
            && View(cached) == world.scans[source].result)
    }

    constructor (world: World)
      ensures Valid() && this.world == world && fresh(Memory(cached)) && cachedAt == None
      ensures mark == |world.scans|
    {
      this.world := world;
      cached := new Project[0];
      cachedAt := None;
      mark := |world.scans|;
      source := 0;
    }

    method Rescan() returns (ok: bool)
      requires Valid()
      modifies this`cached, this`cachedAt, this`source, world
      ensures Valid() && world.now >= old(world.now)
      ensures !ok ==>
                  cached == old(cached) && cachedAt == old(cachedAt) && source == old(source)
                    && world.scans == old(world.scans)
      ensures ok ==> fresh(Memory(cached)) && cachedAt.Some? && cachedAt.value >= old(world.now)
      ensures ok ==>
                  world.scans == old(world.scans) + [ScanRecord(cachedAt.value, View(cached))]
                    && source == |old(world.scans)|
    {
      var projects := world.Scan();
      if projects.None? {
        return false;
      }
      var now := world.Now();
      cached, cachedAt := projects.value, Some(now);
      world.scans := world.scans + [ScanRecord(now, View(cached))];
      source := |world.scans| - 1;
      ok := true;
    }

    /** A result shares no memory with the cache, and shows a scan that began after the last
        Invalidate and whose result is less than 30 seconds old at the moment of the check. */
    method CachedScan(cancelled: bool) returns (r: Option<array<Project>>, ghost checked: int)
      requires Valid()
      modifies this`cached, this`cachedAt, this`source, world
      ensures Valid() && mark == old(mark)
      ensures cached == old(cached) || fresh(Memory(cached))
      ensures old(world.now) <= checked <= world.now
      ensures r.Some? ==> fresh(Memory(r.value)) && Memory(r.value) !! Memory(cached)
      ensures r.Some? ==> mark <= source < |world.scans| && checked - world.scans[source].finished < 30
      ensures r.Some? ==> View(r.value) == View(cached) == world.scans[source].result
      ensures old(world.scans) <= world.scans
      ensures !cancelled && old(cachedAt).Some? && checked - old(cachedAt.value) < 30 ==>
                r.Some? && cached == old(cached) && View(r.value) == old(View(cached))
                  && world.scans == old(world.scans)
      ensures world.scans == old(world.scans) ==> cached == old(cached) && View(cached) == old(View(cached))
      ensures cancelled ==> r.None?
      ensures r.None? ==> cached == old(cached) && cachedAt == old(cachedAt) && world.scans == old(world.scans)
    {
      checked := world.now;
      r := None;
      if cancelled {
        return;
      }
      var stale := cachedAt.None?;
      if cachedAt.Some? {
        var now := world.Now();
        checked := now;
        stale := now - cachedAt.value >= SCAN_SECONDS;
      }
      if stale {
        var ok := Rescan();
        if !ok {
          return;
        }
      }
      var copy := CopyProjects(cached);
      r := Some(copy);
    }

    method Invalidate()
      requires Valid()
      modifies this`cached, this`cachedAt, this`mark
      ensures Valid() && cachedAt == None && mark == |world.scans| && fresh(Memory(cached))
    {
      cached := new Project[0];
      cachedAt := None;
      mark := |world.scans|;
    }
  }

  /** First the structures are copied, then every image list in them. */
  method CopyProjects(a: array<Project>) returns (b: array<Project>)
    ensures fresh(Memory(b)) && View(b) == View(a)
  {
    b := new Project[a.Length](i requires 0 <= i < a.Length reads a => a[i]);
    for i := 0 to a.Length
      invariant fresh(b)
      invariant forall j :: 0 <= j < i ==> fresh(b[j].images) && Show(b[j]) == Show(a[j])
      invariant forall j :: i <= j < a.Length ==> b[j] == a[j]
    {
      var source := a[i].images;
      var images := new string[source.Length](k requires 0 <= k < source.Length reads source => source[k]);
      assert images[..] == source[..];
      b[i] := b[i].(images := images);
    }
  }

  /** Whatever a caller writes into its result, any number of times, both into the list and into the
      image lists, a later caller served from the same scan sees what the first one was given. */
  method CallersAreIsolated(d: Discovery, writes: nat)
    returns (first: Option<array<Project>>, second: Option<array<Project>>, ghost shown: seq<Shown>, ghost scans: nat)
    requires d.Valid()
    modifies d, d.world
    ensures d.Valid()
    ensures first.Some? && second.Some? && |d.world.scans| == scans ==> View(second.value) == shown
  {
    ghost var checked, again;
    first, checked := d.CachedScan(false);
    shown := View(d.cached);
    scans := |d.world.scans|;
    if first.Some? {
      assert shown == View(first.value);
      Scribble(first.value, writes, d);
    }
    second, again := d.CachedScan(false);
  }

  /** Arbitrary writes into a result and into whatever has been put into it. */
  method Scribble(result: array<Project>, writes: nat, ghost d: Discovery)
    requires d.Valid() && Memory(result) !! Memory(d.cached) && d !in Memory(result) && d.world !in Memory(result)
    modifies Memory(result)
    ensures d.Valid() && View(d.cached) == old(View(d.cached))
  {
    ghost var memory := Memory(result);
    for n := 0 to writes
      invariant fresh(Memory(result) - memory)
      invariant unchanged(Memory(d.cached)) && unchanged(d) && unchanged(d.world)
    {
      var i, j: nat :| i >= 0 && j >= 0;
      var text: string := *;
      var whole: bool := *;
      if i < result.Length {
        var images := result[i].images;
        assert images in Memory(result);
        if whole {
          var length: nat :| length >= 0;
          var other := new string[length];
          result[i] := Project(text, text, text, text, other, false);
        } else if j < images.Length {
          images[j] := text;
        }
      }
    }
  }
}
