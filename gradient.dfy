/** The gradient background of gradia/graphics/gradient.py and of its earlier
    copy src/graphics/gradient.py: a cache of rendered gradients shared by
    every instance (a Python dict, so its keys keep insertion order), which
    drops its older half once it holds 100 entries, and the handle of the
    native renderer, loaded on first use. */
module Gradient {
  import opened Wrappers
  import opened Strings
  import Colors

  /** `_MAX_CACHE_SIZE`. */
  const MaxCacheSize := 100

  /** `(start_color, end_color, angle, width, height)`. */
  datatype CacheKey = CacheKey(start: string, end: string, angle: int, width: int, height: int)

  /** The bytes of a rendered RGBA picture. */
  type Image = seq<int>

  /** A `(start_color, end_color, angle)` preset. */
  datatype Preset = Preset(start: string, end: string, angle: int)

  /** `_c_lib`: not tried yet (`None`), loaded, or failed (`False`). */
  datatype Library = Untried | Loaded | Failed

  /** The dict that `get_cache_info` returns. */
  datatype CacheInfo = CacheInfo(size: int, maxSize: int, keys: seq<CacheKey>, libLoaded: bool)

  /** The cache dict: its entries and its keys in insertion order. */
  datatype CacheState = CacheState(entries: map<CacheKey, Image>, order: seq<CacheKey>)

  predicate Distinct(s: seq<CacheKey>) {
    forall i, j :: 0 <= i < j < |s| ==> s[i] != s[j]
  }

  /** The order lists every key of the dict exactly once. */
  ghost predicate WellFormed(c: CacheState) {
    Distinct(c.order) && (forall k :: k in c.entries <==> k in c.order)
  }

  /** The entries of `m` whose key is not among `gone`. */
  function Without(m: map<CacheKey, Image>, gone: seq<CacheKey>): map<CacheKey, Image> {
    map k | k in m && k !in gone :: m[k]
  }

  /** `len(dict)` is the number of keys in the order. */
  lemma {:induction false} SizeIsOrder(c: CacheState)
    requires WellFormed(c)
    ensures |c.entries| == |c.order|
    decreases |c.order|
  {
    if c.order == [] {
      assert c.entries.Keys == {};
    } else {
      var rest := DropOldest(c);
      SizeIsOrder(rest);
    }
  }

  /** The dict without its oldest key. */
  function DropOldest(c: CacheState): (r: CacheState)
    requires WellFormed(c) && c.order != []
    ensures WellFormed(r) && r.order == c.order[1..]
    ensures c.order[0] !in r.entries && c.entries.Keys == r.entries.Keys + {c.order[0]}
  {
    var k := c.order[0];
    var r := CacheState(c.entries - {k}, c.order[1..]);
    assert forall j :: 0 <= j < |r.order| ==> r.order[j] == c.order[j + 1];
    assert k !in r.order;
    r
  }

  /** `_evict_cache_if_needed`: with `_MAX_CACHE_SIZE` entries or more, the
      first `_MAX_CACHE_SIZE // 2` keys in insertion order are deleted. */
  function Evict(c: CacheState): CacheState
    requires WellFormed(c)
  {
    if |c.entries| >= MaxCacheSize then
      SizeIsOrder(c);
      CacheState(Without(c.entries, c.order[..MaxCacheSize / 2]), c.order[MaxCacheSize / 2..])
    else c
  }

  /** `dict[key] = image`: a new key goes to the end of the order, a present
      one keeps its place. */
  function Insert(c: CacheState, key: CacheKey, image: Image): CacheState {
    if key in c.entries then CacheState(c.entries[key := image], c.order)
    else CacheState(c.entries[key := image], c.order + [key])
  }

  /** `prepare_image`: the picture handed back and the cache afterwards. A
      cached key is answered from the cache. Otherwise the cache is evicted
      first; then the renderer must be loaded (`RuntimeError`) and both
      colours must read (`readable`, otherwise `ValueError` from
      `hex_to_rgb`), and only then is the rendered picture stored. */
  function Outcome(c: CacheState, key: CacheKey, loaded: bool, readable: bool, rendered: Image): (Result<Image>, CacheState)
    requires WellFormed(c)
  {
    if key in c.entries then (Ok(c.entries[key]), c)
    else if !loaded then (Err(RuntimeError), Evict(c))
    else if !readable then (Err(ValueError), Evict(c))
    else (Ok(rendered), Insert(Evict(c), key, rendered))
  }

  /** Both colours of the key read with `hex_to_rgb`. */
  predicate Readable(key: CacheKey) {
    Colors.HexToRgb(key.start).Ok? && Colors.HexToRgb(key.end).Ok?
  }

  /** `_load_c_lib`. gradia's version tries again unless the library is
      loaded (`if cls._c_lib: return`); the earlier one tries only once
      (`if cls._c_lib is not None: return`). */
  function AfterLoad(lib: Library, retries: bool, available: bool): Library {
    if lib == Loaded || (!retries && lib != Untried) then lib
    else if available then Loaded else Failed
  }

  /** `get_cache_info`. */
  function InfoOf(c: CacheState, lib: Library): CacheInfo {
    CacheInfo(|c.entries|, MaxCacheSize, c.order, lib == Loaded)
  }

  /** `get_name`. */
  function GradientName(start: string, end: string, angle: int): string {
    "gradient-" + start + "-" + end + "-" + IntToString(angle)
  }

  /** The preset that `fromIndex` copies, or `IndexError`. */
  function PresetAt(presets: seq<Preset>, index: int): (r: Result<Preset>)
    ensures r.Ok? <==> 0 <= index < |presets|
    ensures r.Ok? ==> r.value == presets[index]
    ensures r.Err? ==> r.error == IndexError
  {
    if 0 <= index < |presets| then Ok(presets[index]) else Err(IndexError)
  }

  /** The class-level state of `GradientBackground`: the cache dict and the
      renderer handle. `retriesLoad` tells gradia's loader from the earlier
      one. */
  class GradientCache {
    var entries: map<CacheKey, Image>
    var order: seq<CacheKey>
    var library: Library
    const retriesLoad: bool

    function State(): CacheState
      reads this
    {
      CacheState(entries, order)
    }

    /** The dict is well formed and never holds more than `_MAX_CACHE_SIZE`
        entries. */
    ghost predicate Valid()
      reads this
    {
      WellFormed(State()) && |entries| <= MaxCacheSize
    }

    constructor(retriesLoad: bool)
      ensures Valid() && this.retriesLoad == retriesLoad
      ensures State() == CacheState(map[], []) && library == Untried
    {
      entries := map[];
      order := [];
      library := Untried;
      this.retriesLoad := retriesLoad;
    }

    /** `_load_c_lib`; `available` is whether loading the shared object
        succeeds. */
    method LoadLibrary(available: bool)
      modifies this
      requires Valid()
      ensures Valid() && State() == old(State())
      ensures library == AfterLoad(old(library), retriesLoad, available)
    {
      if library == Loaded || (!retriesLoad && library != Untried) {
        return;
      }
      library := if available then Loaded else Failed;
    }

    /** `_evict_cache_if_needed`, and the same loop written inline in the
        earlier `prepare_image`. */
    method EvictIfNeeded()
      modifies this
      requires Valid()
      ensures Valid() && State() == Evict(old(State())) && library == old(library)
    {
      ghost var c := State();
      if |entries| >= MaxCacheSize {
        SizeIsOrder(c);
        DeleteOldest(MaxCacheSize / 2);
      }
      EvictWellFormed(c);
      EvictSize(c);
    }

    /** The `del` loop over the first `n` keys: each deleted key is the
        oldest one left. */
    method DeleteOldest(n: nat)
      modifies this
      requires n <= |order|
      ensures entries == Without(old(entries), old(order)[..n]) && order == old(order)[n..]
      ensures library == old(library)
    {
      var keys := order[..n];
      ghost var m := entries;
      ghost var o := order;
      var i := 0;
      while i < |keys|
        invariant 0 <= i <= |keys|
        invariant order == o[i..]
        invariant entries == Without(m, keys[..i])
        invariant library == old(library)
      {
        WithoutStep(m, keys, i);
        entries := entries - {keys[i]};
        order := order[1..];
        i := i + 1;
      }
      assert keys[..i] == keys;
    }

    /** `prepare_image` for `key`; `rendered` is what the native renderer
        draws for it. */
    method Prepare(key: CacheKey, rendered: Image) returns (r: Result<Image>)
      modifies this
      requires Valid()
      ensures Valid() && library == old(library)
      ensures (r, State()) == Outcome(old(State()), key, old(library) == Loaded, Readable(key), rendered)
    {
      ghost var c := State();
      if key in entries {
        return Ok(entries[key]);
      }
      EvictIfNeeded();
      if library != Loaded {
        return Err(RuntimeError);
      }
      if !Readable(key) {
        return Err(ValueError);
      }
      EvictRoom(c, key);
      Store(key, rendered);
      r := Ok(rendered);
    }

    /** `_gradient_cache[cache_key] = image` for a key that is not cached,
        with room for it. */
    method Store(key: CacheKey, image: Image)
      modifies this
      requires Valid() && key !in entries && |entries| < MaxCacheSize
      ensures Valid() && State() == Insert(old(State()), key, image) && library == old(library)
    {
      InsertFresh(State(), key, image);
      entries := entries[key := image];
      order := order + [key];
    }

    /** `clear_cache`. */
    method Clear()
      modifies this
      ensures Valid() && State() == CacheState(map[], []) && library == old(library)
    {
      entries := map[];
      order := [];
    }

    /** `get_cache_info`. */
    function Info(): (r: CacheInfo)
      reads this
      ensures r == InfoOf(State(), library)
    {
      CacheInfo(|entries|, MaxCacheSize, order, library == Loaded)
    }
  }

  /** `GradientBackground`: two colours and an angle, sharing the class-level
      cache with every other instance. */
  class GradientBackground {
    const startColor: string
    const endColor: string
    const angle: int
    const cache: GradientCache

    /** `__init__`, which also calls `_load_c_lib`. */
    constructor(startColor: string, endColor: string, angle: int, cache: GradientCache, available: bool)
      modifies cache
      requires cache.Valid()
      ensures this.startColor == startColor && this.endColor == endColor && this.angle == angle
      ensures this.cache == cache && cache.Valid() && cache.State() == old(cache.State())
      ensures cache.library == AfterLoad(old(cache.library), cache.retriesLoad, available)
    {
      this.startColor := startColor;
      this.endColor := endColor;
      this.angle := angle;
      this.cache := cache;
      new;
      cache.LoadLibrary(available);
    }

    /** `fromIndex`: a background copying preset `index` of `presets`, or
        `IndexError` with nothing loaded. */
    static method FromIndex(presets: seq<Preset>, index: int, cache: GradientCache, available: bool)
      returns (r: Result<GradientBackground>)
      modifies cache
      requires cache.Valid()
      ensures cache.Valid() && cache.State() == old(cache.State())
      ensures r.Err? <==> PresetAt(presets, index).Err?
      ensures r.Err? ==> r.error == IndexError && cache.library == old(cache.library)
      ensures r.Ok? ==> fresh(r.value) && r.value.cache == cache
      ensures r.Ok? ==> r.value.startColor == presets[index].start && r.value.endColor == presets[index].end
      ensures r.Ok? ==> r.value.angle == presets[index].angle
      ensures r.Ok? ==> cache.library == AfterLoad(old(cache.library), cache.retriesLoad, available)
    {
      var p := PresetAt(presets, index);
      if p.Err? {
        return Err(p.error);
      }
      var b := new GradientBackground(p.value.start, p.value.end, p.value.angle, cache, available);
      r := Ok(b);
    }

    function Name(): string {
      GradientName(startColor, endColor, angle)
    }

    function Key(width: int, height: int): CacheKey {
      CacheKey(startColor, endColor, angle, width, height)
    }

    /** `prepare_image(width, height)`. */
    method PrepareImage(width: int, height: int, rendered: Image) returns (r: Result<Image>)
      modifies cache
      requires cache.Valid()
      ensures cache.Valid() && cache.library == old(cache.library)
      ensures (r, cache.State())
           == Outcome(old(cache.State()), Key(width, height), old(cache.library) == Loaded, Readable(Key(width, height)), rendered)
    {
      r := cache.Prepare(Key(width, height), rendered);
    }
  }

  // ---------------------------------------------------------------------
  // Eviction

  lemma WithoutStep(m: map<CacheKey, Image>, keys: seq<CacheKey>, i: nat)
    requires i < |keys|
    ensures Without(m, keys[..i + 1]) == Without(m, keys[..i]) - {keys[i]}
  {
    assert keys[..i + 1] == keys[..i] + [keys[i]];
  }

  /** Eviction leaves a well-formed dict. */
  lemma EvictWellFormed(c: CacheState)
    requires WellFormed(c)
    ensures WellFormed(Evict(c))
  {
    if |c.entries| >= MaxCacheSize {
      SizeIsOrder(c);
      var e := Evict(c);
      assert forall j :: 0 <= j < |e.order| ==> e.order[j] == c.order[j + 50];
      forall k | k in e.order
        ensures k in e.entries
      {
        var j :| 0 <= j < |e.order| && e.order[j] == k;
        assert c.order[j + 50] == k;
        assert k !in c.order[..50];
      }
    }
  }

  /** Eviction from a full dict removes exactly the 50 oldest keys: a key
      survives exactly when its position in the order is 50 or later, and
      it keeps its picture. Below 100 entries nothing happens. */
  lemma EvictOldest(c: CacheState)
    requires WellFormed(c)
    ensures forall k :: k in Evict(c).entries ==> k in c.entries && Evict(c).entries[k] == c.entries[k]
    ensures |c.entries| >= MaxCacheSize ==>
      forall i :: 0 <= i < |c.order| ==> (c.order[i] in Evict(c).entries <==> i >= MaxCacheSize / 2)
    ensures |c.entries| < MaxCacheSize ==> Evict(c) == c
  {
    if |c.entries| >= MaxCacheSize {
      SizeIsOrder(c);
      forall i | 0 <= i < |c.order|
        ensures c.order[i] in Evict(c).entries <==> i >= 50
      {
        if i >= 50 {
          assert c.order[i] !in c.order[..50];
        } else {
          assert c.order[..50][i] == c.order[i];
        }
      }
    }
  }

  /** A full dict shrinks by exactly 50: the survivors are the order from
      position 50 on. */
  lemma EvictSize(c: CacheState)
    requires WellFormed(c)
    ensures |c.entries| >= MaxCacheSize ==> |Evict(c).entries| == |c.entries| - MaxCacheSize / 2
    ensures |c.entries| >= MaxCacheSize ==> Evict(c).order == c.order[MaxCacheSize / 2..]
    ensures |Evict(c).entries| <= |c.entries|
  {
    SizeIsOrder(c);
    EvictWellFormed(c);
    SizeIsOrder(Evict(c));
  }

  // ---------------------------------------------------------------------
  // Preparing a picture

  lemma InsertFresh(c: CacheState, key: CacheKey, image: Image)
    requires WellFormed(c) && key !in c.entries
    ensures WellFormed(Insert(c, key, image)) && |Insert(c, key, image).entries| == |c.entries| + 1
  {
    var d := Insert(c, key, image);
    assert forall j :: 0 <= j < |c.order| ==> d.order[j] == c.order[j];
    SizeIsOrder(c);
    SizeIsOrder(d);
  }

  /** `prepare_image` keeps the dict well formed and, since a miss evicts
      before it stores, never lets it grow past 100 entries. */
  lemma PrepareKeeps(c: CacheState, key: CacheKey, loaded: bool, readable: bool, rendered: Image)
    requires WellFormed(c) && |c.entries| <= MaxCacheSize
    ensures var d := Outcome(c, key, loaded, readable, rendered).1; WellFormed(d) && |d.entries| <= MaxCacheSize
  {
    if key !in c.entries {
      EvictRoom(c, key);
      var e := Evict(c);
      if loaded && readable {
        InsertFresh(e, key, rendered);
        assert Outcome(c, key, loaded, readable, rendered).1 == Insert(e, key, rendered);
      } else {
        assert Outcome(c, key, loaded, readable, rendered).1 == e;
      }
    }
  }

  /** Evicting a dict of at most 100 entries leaves room for one more, and
      a key that was missing is still missing. */
  lemma EvictRoom(c: CacheState, key: CacheKey)
    requires WellFormed(c) && |c.entries| <= MaxCacheSize && key !in c.entries
    ensures WellFormed(Evict(c)) && |Evict(c).entries| < MaxCacheSize && key !in Evict(c).entries
  {
    EvictWellFormed(c);
    EvictSize(c);
  }

  /** A cached key is answered with its picture and the cache is untouched. */
  lemma PrepareHit(c: CacheState, key: CacheKey, loaded: bool, readable: bool, rendered: Image)
    requires WellFormed(c) && key in c.entries
    ensures Outcome(c, key, loaded, readable, rendered) == (Ok(c.entries[key]), c)
  {
  }

  /** A missing key, with the renderer loaded and both colours readable, is
      rendered and stored as the newest key after the eviction, and every
      older entry that survived the eviction is kept. */
  lemma PrepareMiss(c: CacheState, key: CacheKey, rendered: Image)
    requires WellFormed(c) && key !in c.entries
    ensures var (r, d) := Outcome(c, key, true, true, rendered);
      && r == Ok(rendered) && key in d.entries && d.entries[key] == rendered
      && d.order == Evict(c).order + [key]
      && forall k :: k in Evict(c).entries ==> k in d.entries && d.entries[k] == c.entries[k]
  {
    EvictOldest(c);
  }

  /** Without the renderer, or with a colour that does not read, a miss
      fails; the eviction has already happened and nothing is stored. */
  lemma PrepareFails(c: CacheState, key: CacheKey, loaded: bool, readable: bool, rendered: Image)
    requires WellFormed(c) && key !in c.entries && !(loaded && readable)
    ensures var (r, d) := Outcome(c, key, loaded, readable, rendered);
      && r == Err(if loaded then ValueError else RuntimeError)
      && d == Evict(c) && key !in d.entries
  {
    EvictOldest(c);
  }

  /** Once a picture is stored, asking again for the same key, from any
      background with the same colours and angle, gets that picture back
      and changes nothing. */
  lemma SecondCallHits(c: CacheState, key: CacheKey, loaded: bool, readable: bool, rendered: Image, again: Image)
    requires WellFormed(c)
    requires Outcome(c, key, loaded, readable, rendered).0.Ok?
    ensures var (r, d) := Outcome(c, key, loaded, readable, rendered);
      WellFormed(d) && Outcome(d, key, loaded, readable, again) == (r, d)
  {
    EvictWellFormed(c);
    if key !in c.entries {
      EvictOldest(c);
      InsertFresh(Evict(c), key, rendered);
    }
  }

  /** Two backgrounds with equal colours and angle use the same key for the
      same size, so they share one entry of the class-level dict. */
  lemma SharedKey(a: GradientBackground, b: GradientBackground, width: int, height: int)
    requires a.startColor == b.startColor && a.endColor == b.endColor && a.angle == b.angle
    ensures a.Key(width, height) == b.Key(width, height)
    ensures a.Key(width, height).width == width && a.Key(width, height).height == height
  {
  }

  // ---------------------------------------------------------------------
  // Loading, clearing and information

  /** A loaded library stays loaded. gradia tries again after a failure;
      the earlier loader never does. Any call leaves the untried state. */
  lemma LoadOutcomes(lib: Library, retries: bool, available: bool)
    ensures lib == Loaded ==> AfterLoad(lib, retries, available) == Loaded
    ensures lib == Failed && !retries ==> AfterLoad(lib, retries, available) == Failed
    ensures lib != Loaded && (retries || lib == Untried) ==>
      (AfterLoad(lib, retries, available) == Loaded <==> available)
    ensures AfterLoad(lib, retries, available) != Untried
  {
  }

  /** Loading twice with the same outcome is loading once. */
  lemma LoadIdempotent(lib: Library, retries: bool, available: bool)
    ensures AfterLoad(AfterLoad(lib, retries, available), retries, available) == AfterLoad(lib, retries, available)
  {
  }

  /** The reported size is the number of keys listed, at most the reported
      maximum of 100, and every listed key is cached. */
  lemma InfoConsistent(c: CacheState, lib: Library)
    requires WellFormed(c) && |c.entries| <= MaxCacheSize
    ensures var i := InfoOf(c, lib);
      && i.size == |i.keys| <= i.maxSize == 100
      && (forall k :: k in i.keys ==> k in c.entries)
      && (i.libLoaded <==> lib == Loaded)
  {
    SizeIsOrder(c);
  }

  // ---------------------------------------------------------------------
  // Names

  /** Splitting a name on '-' gives "gradient", the two colours and the
      fields of the angle, when the colours hold no '-'. */
  lemma NameSplit(start: string, end: string, angle: int)
    requires '-' !in start && '-' !in end
    ensures Split(GradientName(start, end, angle), '-') == ["gradient", start, end] + Split(IntToString(angle), '-')
  {
    var a := IntToString(angle);
    var r3 := end + ['-'] + a;
    var r2 := start + ['-'] + r3;
    NameShape(start, end, a);
    SplitAfter("gradient", r2, '-');
    SplitAfter(start, r3, '-');
    SplitAfter(end, a, '-');
    Cons3("gradient", start, end, Split(a, '-'));
  }

  lemma NameShape(start: string, end: string, a: string)
    ensures "gradient-" + start + "-" + end + "-" + a == "gradient" + ['-'] + (start + ['-'] + (end + ['-'] + a))
  {
    assert "gradient-" == "gradient" + ['-'];
  }

  lemma Cons3(x: string, y: string, z: string, p: seq<string>)
    ensures [x] + ([y] + ([z] + p)) == [x, y, z] + p
  {
  }

  /** A non-negative angle is the fourth and last field. */
  lemma NameFields(start: string, end: string, angle: int)
    requires '-' !in start && '-' !in end && angle >= 0
    ensures Split(GradientName(start, end, angle), '-') == ["gradient", start, end, IntToString(angle)]
  {
    NameSplit(start, end, angle);
    NoOtherChars(NatToString(angle), '-');
  }

  /** Names tell backgrounds apart: with colours free of '-', equal names
      mean equal colours and angles. */
  lemma NameInjective(s1: string, e1: string, a1: int, s2: string, e2: string, a2: int)
    requires '-' !in s1 && '-' !in e1 && '-' !in s2 && '-' !in e2
    requires GradientName(s1, e1, a1) == GradientName(s2, e2, a2)
    ensures s1 == s2 && e1 == e2 && a1 == a2
  {
    NameSplit(s1, e1, a1);
    NameSplit(s2, e2, a2);
    var p1, p2 := Split(IntToString(a1), '-'), Split(IntToString(a2), '-');
    assert ["gradient", s1, e1] + p1 == ["gradient", s2, e2] + p2;
    assert p1 == (["gradient", s1, e1] + p1)[3..];
    JoinSplit(IntToString(a1), '-');
    JoinSplit(IntToString(a2), '-');
    IntToStringRoundTrip(a1);
    IntToStringRoundTrip(a2);
  }
}
