/**
 Loaded images and the point-address cache over them. `Ref` stands for a
 reference to an ImageInfo record; `heap` holds every record ever allocated,
 loaded or pooled for reuse.
 */
module Images {
  import opened ScrapeClock
  import opened Words

  datatype ImageRecord = ImageRecord(base: uint64, size: uint64, name: string, refCount: int)

  /** The range test of the scan, with 64-bit wrap-around of the end address. */
  predicate Covers(image: ImageRecord, address: uint64) {
    address >= image.base && address < (image.base + image.size) % TWO_64
  }

  datatype State<Ref(==)> = State(
    images: map<uint64, Ref>,
    addressCache: map<uint64, Ref>,
    terminated: map<uint64, nat>,
    pool: multiset<Ref>,
    heap: map<Ref, ImageRecord>)

  ghost predicate Loaded<Ref>(images: map<uint64, Ref>, heap: map<Ref, ImageRecord>, o: Ref) {
    o in heap && heap[o].base in images && images[heap[o].base] == o
  }

  /** Some loaded image covers the address. */
  ghost predicate Mapped<Ref>(s: State<Ref>, address: uint64) {
    exists base :: base in s.images && s.images[base] in s.heap && Covers(s.heap[s.images[base]], address)
  }

  /** No address lies in two loaded images. */
  ghost predicate Disjoint<Ref>(s: State<Ref>) {
    forall b, c, address: uint64 |
      && b in s.images && s.images[b] in s.heap && Covers(s.heap[s.images[b]], address)
      && c in s.images && s.images[c] in s.heap && Covers(s.heap[s.images[c]], address) :: b == c
  }

  ghost predicate Inv<Ref>(s: State<Ref>) {
    && (forall b | b in s.images :: s.images[b] in s.heap && s.heap[s.images[b]].base == b)
    && CacheAgrees(s.addressCache, s.images, s.heap)
    && s.terminated.Keys <= s.images.Keys
    && PoolIsFree(s.pool, s.images, s.heap)
  }

  /** No record is pooled twice, nor pooled while its image is loaded. */
  ghost predicate PoolIsFree<Ref>(pool: multiset<Ref>, images: map<uint64, Ref>, heap: map<Ref, ImageRecord>) {
    forall o | o in pool :: pool[o] == 1 && o in heap && !Loaded(images, heap, o)
  }

  /** Every cached entry leads to a loaded image that covers its address. */
  ghost predicate CacheAgrees<Ref>(cache: map<uint64, Ref>, images: map<uint64, Ref>, heap: map<Ref, ImageRecord>) {
    forall a | a in cache :: Loaded(images, heap, cache[a]) && Covers(heap[cache[a]], a)
  }

  function Init<Ref>(): State<Ref> {
    State(map[], map[], map[], multiset{}, map[])
  }

  predicate Available<Ref>(s: State<Ref>, o: Ref) {
    o in s.pool || o !in s.heap
  }

  /** A new image in record o. */
  function Stored<Ref>(s: State<Ref>, o: Ref, image: ImageRecord): State<Ref> {
    s.(heap := s.heap[o := image], pool := s.pool - multiset{o}, images := s.images[image.base := o])
  }

  function Added<Ref>(s: State<Ref>, o: Ref, base: uint64, size: uint64, name: string): State<Ref>
    requires base in s.images ==> s.images[base] in s.heap
  {
    if base == 0 || size == 0 then s
    else if base in s.images then
      var known := s.images[base];
      s.(heap := s.heap[known := s.heap[known].(refCount := s.heap[known].refCount + 1)])
    else
      Stored(s, o, ImageRecord(base, size, name, 1))
  }

  function Unloaded<Ref>(s: State<Ref>, base: uint64, generation: nat): State<Ref>
    requires base in s.images ==> s.images[base] in s.heap
  {
    if base !in s.images then s
    else
      var o := s.images[base];
      var image := s.heap[o].(refCount := s.heap[o].refCount - 1);
      var counted := s.(heap := s.heap[o := image]);
      if image.refCount <= 0 then counted.(terminated := s.terminated[base := generation]) else counted
  }

  function CacheWithout<Ref(==)>(cache: map<uint64, Ref>, o: Ref): map<uint64, Ref> {
    map a | a in cache && cache[a] != o :: cache[a]
  }

  function Removed<Ref>(s: State<Ref>, base: uint64): State<Ref> {
    if base !in s.images then s.(terminated := s.terminated - {base})
    else
      State(s.images - {base}, CacheWithout(s.addressCache, s.images[base]), s.terminated - {base},
            s.pool + multiset{s.images[base]}, s.heap)
  }

  /** `found` is the covering image the scan met first, if it met any. */
  predicate IsScanResult<Ref>(s: State<Ref>, address: uint64, found: Option<Ref>) {
    match found
    case Some(o) =>
      && o in s.heap && s.heap[o].base in s.images && s.images[s.heap[o].base] == o
      && Covers(s.heap[o], address)
    case None => forall base | base in s.images && s.images[base] in s.heap :: !Covers(s.heap[s.images[base]], address)
  }

  /** The answer, and the state with the answer cached. */
  function Lookup<Ref>(s: State<Ref>, address: uint64, found: Option<Ref>): (Option<Ref>, State<Ref>) {
    if address in s.addressCache then (Some(s.addressCache[address]), s)
    else
      match found
      case Some(o) => (found, s.(addressCache := s.addressCache[address := o]))
      case None => (None, s)
  }

  function RemoveAll<Ref>(s: State<Ref>, bases: seq<uint64>): State<Ref> {
    if bases == [] then s else Removed(RemoveAll(s, bases[..|bases| - 1]), bases[|bases| - 1])
  }

  // ---- runs ----

  datatype Event<Ref> =
    | ImageLoaded(o: Ref, base: uint64, size: uint64, name: string)
    | ImageUnloaded(base: uint64, generation: nat)
    | AddressLookedUp(address: uint64, found: Option<Ref>)
    | ImagesCleaned(threshold: nat, order: seq<uint64>)

  ghost predicate Next<Ref>(s: State<Ref>, e: Event<Ref>, s': State<Ref>) {
    match e
    case ImageLoaded(o, base, size, name) =>
      && (base in s.images ==> s.images[base] in s.heap)
      && (base != 0 && size != 0 && base !in s.images ==> Available(s, o))
      && s' == Added(s, o, base, size, name)
    case ImageUnloaded(base, generation) =>
      (base in s.images ==> s.images[base] in s.heap) && s' == Unloaded(s, base, generation)
    case AddressLookedUp(address, found) => IsScanResult(s, address, found) && s' == Lookup(s, address, found).1
    case ImagesCleaned(threshold, order) =>
      IsOrderOf(order, Expired(s.terminated, threshold)) && s' == RemoveAll(s, order)
  }

  /** states[i + 1] is what event i makes of states[i], from the empty manager on. */
  ghost predicate IsRun<Ref>(states: seq<State<Ref>>, events: seq<Event<Ref>>) {
    && |states| == |events| + 1 && states[0] == Init()
    && forall i | 0 <= i < |events| :: Next(states[i], events[i], states[i + 1])
  }

  /** Changing the count of a loaded image. */
  lemma CountKeepsInvariant<Ref>(s: State<Ref>, o: Ref, refCount: int)
    requires Inv(s) && Loaded(s.images, s.heap, o)
    ensures Inv(s.(heap := s.heap[o := s.heap[o].(refCount := refCount)]))
  {
    hide Covers;
    CountKeepsCover(s.heap[o], refCount);
    var s' := s.(heap := s.heap[o := s.heap[o].(refCount := refCount)]);
    assert forall r | r in s.heap :: Loaded(s'.images, s'.heap, r) <==> Loaded(s.images, s.heap, r);
  }

  lemma CountKeepsCover(image: ImageRecord, refCount: int)
    ensures forall address :: Covers(image.(refCount := refCount), address) <==> Covers(image, address)
  {
  }

  /** Storing a new image in a record that holds no loaded one leaves all others as they were. */
  lemma StoreLoads<Ref>(s: State<Ref>, o: Ref, image: ImageRecord)
    requires Inv(s) && image.base !in s.images && Available(s, o)
    ensures !Loaded(s.images, s.heap, o)
    ensures var s' := Stored(s, o, image);
            forall r | r != o :: Loaded(s'.images, s'.heap, r) <==> Loaded(s.images, s.heap, r)
  {
    assert forall b | b in s.images :: Loaded(s.images, s.heap, s.images[b]);
  }

  lemma StoreKeepsCache<Ref>(s: State<Ref>, o: Ref, image: ImageRecord)
    requires Inv(s) && image.base !in s.images && Available(s, o)
    ensures CacheAgrees(s.addressCache, Stored(s, o, image).images, Stored(s, o, image).heap)
  {
    StoreLoads(s, o, image);
  }

  lemma StoreKeepsPool<Ref>(s: State<Ref>, o: Ref, image: ImageRecord)
    requires Inv(s) && image.base !in s.images && Available(s, o)
    ensures var s' := Stored(s, o, image); PoolIsFree(s'.pool, s'.images, s'.heap)
  {
    hide CacheAgrees;
    StoreLoads(s, o, image);
    var s' := Stored(s, o, image);
    forall r | r in s'.pool
      ensures s'.pool[r] == 1 && r in s'.heap && !Loaded(s'.images, s'.heap, r)
    {
      assert r != o && r in s.pool && s'.pool[r] == s.pool[r];
    }
  }

  lemma StoreKeepsInvariant<Ref>(s: State<Ref>, o: Ref, image: ImageRecord)
    requires Inv(s) && image.base !in s.images && Available(s, o)
    ensures Inv(Stored(s, o, image))
  {
    StoreKeepsCache(s, o, image);
    StoreKeepsPool(s, o, image);
    StoreLoads(s, o, image);
    hide CacheAgrees, PoolIsFree;
    assert forall b | b in s.images :: Loaded(s.images, s.heap, s.images[b]);
    hide Loaded;
  }

  lemma AddImageKeepsInvariant<Ref>(s: State<Ref>, o: Ref, base: uint64, size: uint64, name: string)
    requires Inv(s) && (base != 0 && size != 0 && base !in s.images ==> Available(s, o))
    ensures Inv(Added(s, o, base, size, name))
  {
    if base != 0 && size != 0 {
      if base in s.images {
        CountKeepsInvariant(s, s.images[base], s.heap[s.images[base]].refCount + 1);
      } else {
        StoreKeepsInvariant(s, o, ImageRecord(base, size, name, 1));
      }
    }
  }

  lemma UnloadImageKeepsInvariant<Ref>(s: State<Ref>, base: uint64, generation: nat)
    requires Inv(s)
    ensures Inv(Unloaded(s, base, generation))
  {
    if base in s.images {
      var o := s.images[base];
      CountKeepsInvariant(s, o, s.heap[o].refCount - 1);
    }
  }

  lemma RemoveImageKeepsInvariant<Ref>(s: State<Ref>, base: uint64)
    requires Inv(s)
    ensures Inv(Removed(s, base))
  {
  }

  lemma LookupKeepsInvariant<Ref>(s: State<Ref>, address: uint64, found: Option<Ref>)
    requires Inv(s) && IsScanResult(s, address, found)
    ensures Inv(Lookup(s, address, found).1)
  {
  }

  lemma {:induction false} RemoveAllKeepsInvariant<Ref>(s: State<Ref>, bases: seq<uint64>)
    requires Inv(s)
    ensures Inv(RemoveAll(s, bases))
  {
    if bases != [] {
      RemoveAllKeepsInvariant(s, bases[..|bases| - 1]);
      RemoveImageKeepsInvariant(RemoveAll(s, bases[..|bases| - 1]), bases[|bases| - 1]);
    }
  }

  lemma StepKeepsInvariant<Ref>(s: State<Ref>, e: Event<Ref>, s': State<Ref>)
    requires Inv(s) && Next(s, e, s')
    ensures Inv(s')
  {
    match e
    case ImageLoaded(o, base, size, name) => AddImageKeepsInvariant(s, o, base, size, name);
    case ImageUnloaded(base, generation) => UnloadImageKeepsInvariant(s, base, generation);
    case AddressLookedUp(address, found) => LookupKeepsInvariant(s, address, found);
    case ImagesCleaned(_, order) => RemoveAllKeepsInvariant(s, order);
  }

  /** In every reachable state the cache agrees with the loaded images, whatever was removed and recycled before. */
  lemma {:induction false} RunKeepsInvariant<Ref>(states: seq<State<Ref>>, events: seq<Event<Ref>>, n: nat)
    requires IsRun(states, events) && n <= |events|
    ensures Inv(states[n])
  {
    hide Inv, Next;
    if n > 0 {
      RunKeepsInvariant(states, events, n - 1);
      assert Next(states[n - 1], events[n - 1], states[n - 1 + 1]);
      StepKeepsInvariant(states[n - 1], events[n - 1], states[n]);
    } else {
      NothingLoaded<Ref>();
    }
  }

  lemma NothingLoaded<Ref>()
    ensures Inv(Init<Ref>())
  {
  }

  /** A lookup succeeds exactly when some loaded image covers the address, and then answers with such an image. */
  lemma LookupFindsExactly<Ref>(s: State<Ref>, address: uint64, found: Option<Ref>)
    requires Inv(s) && IsScanResult(s, address, found)
    ensures Lookup(s, address, found).0.Some? <==> Mapped(s, address)
    ensures Lookup(s, address, found).0.Some? ==>
              var o := Lookup(s, address, found).0.value;
              Loaded(s.images, s.heap, o) && Covers(s.heap[o], address)
  {
    if address in s.addressCache {
      assert s.heap[s.addressCache[address]].base in s.images;
    }
  }

  /** The addresses of a loaded image, by its base and size; the end wraps around at 2^64. */
  lemma CoverExactly<Ref>(s: State<Ref>, base: uint64, address: uint64)
    requires Inv(s) && base in s.images
    ensures s.images[base] in s.heap
    ensures Covers(s.heap[s.images[base]], address)
            <==> base <= address && address < (base + s.heap[s.images[base]].size) % 0x1_0000_0000_0000_0000
  {
  }

  /** The image at this base is loaded, and the address is one of its. */
  ghost predicate HoldsAddress<Ref>(s: State<Ref>, base: uint64, address: uint64) {
    && base in s.images && s.images[base] in s.heap
    && base <= address && address < (base + s.heap[s.images[base]].size) % 0x1_0000_0000_0000_0000
  }

  /**
   By bases and sizes: a lookup succeeds exactly when some loaded image holds the address, and
   answers with such a one.
   */
  lemma LookupByAddress<Ref>(s: State<Ref>, address: uint64, found: Option<Ref>)
    requires Inv(s) && IsScanResult(s, address, found)
    ensures Lookup(s, address, found).0.Some? <==> exists base :: HoldsAddress(s, base, address)
    ensures Lookup(s, address, found).0.Some? ==>
              exists base :: HoldsAddress(s, base, address) && s.images[base] == Lookup(s, address, found).0.value
  {
    hide Inv, Lookup, IsScanResult;
    LookupFindsExactly(s, address, found);
    forall base | base in s.images
      ensures s.images[base] in s.heap
      ensures Covers(s.heap[s.images[base]], address) <==> HoldsAddress(s, base, address)
    {
      CoverExactly(s, base, address);
    }
    if Lookup(s, address, found).0.Some? {
      var o := Lookup(s, address, found).0.value;
      assert HoldsAddress(s, s.heap[o].base, address) && s.images[s.heap[o].base] == o;
    }
  }

  /** What a load does, field by field: nothing for an empty image; one more user of a known one; else a new record. */
  lemma LoadExactly<Ref>(s: State<Ref>, e: Event<Ref>, s': State<Ref>)
    requires Inv(s) && Next(s, e, s') && e.ImageLoaded?
    ensures e.base == 0 || e.size == 0 ==> s' == s
    ensures e.base != 0 && e.size != 0 && e.base in s.images ==>
              var o := s.images[e.base];
              && s' == s.(heap := s'.heap) && s'.heap.Keys == s.heap.Keys && o in s.heap
              && (forall r | r in s.heap && r != o :: s'.heap[r] == s.heap[r])
              && s'.heap[o] == s.heap[o].(refCount := s'.heap[o].refCount)
              && s'.heap[o].refCount == s.heap[o].refCount + 1
    ensures e.base != 0 && e.size != 0 && e.base !in s.images ==>
              && s'.images == s.images[e.base := e.o] && e.o in s'.heap && s'.terminated == s.terminated
              && s'.heap[e.o] == ImageRecord(e.base, e.size, e.name, 1) && s'.addressCache == s.addressCache
  {
    hide CacheAgrees, PoolIsFree;
  }

  /** What an unload does: one user less. */
  lemma UnloadExactly<Ref>(s: State<Ref>, e: Event<Ref>, s': State<Ref>)
    requires Inv(s) && Next(s, e, s') && e.ImageUnloaded?
    ensures e.base !in s.images ==> s' == s
    ensures e.base in s.images ==>
              var o := s.images[e.base];
              && o in s.heap && s'.heap.Keys == s.heap.Keys
              && s' == s.(heap := s'.heap, terminated := s'.terminated)
              && (forall r | r in s.heap && r != o :: s'.heap[r] == s.heap[r])
              && s'.heap[o] == s.heap[o].(refCount := s'.heap[o].refCount)
              && s'.heap[o].refCount == s.heap[o].refCount - 1
              && s'.terminated == if s'.heap[o].refCount <= 0 then s.terminated[e.base := e.generation]
                                  else s.terminated
  {
    hide CacheAgrees, PoolIsFree;
  }

  /** With disjoint images the cache is invisible: every lookup answers as the linear scan would. */
  lemma LookupEqualsScan<Ref>(s: State<Ref>, address: uint64, found: Option<Ref>)
    requires Inv(s) && Disjoint(s) && IsScanResult(s, address, found)
    ensures Lookup(s, address, found).0 == found
  {
    if address in s.addressCache {
      var o := s.addressCache[address];
      assert s.heap[o].base in s.images;
      if found.Some? {
        assert s.heap[found.value].base in s.images;
      }
    }
  }

  // ---- cleanup ----

  lemma CachedAreRecords<Ref>(s: State<Ref>)
    requires Inv(s)
    ensures forall a | a in s.addressCache :: s.addressCache[a] in s.heap
  {
  }

  lemma RemovedOne<Ref>(s: State<Ref>, base: uint64)
    requires Inv(s)
    ensures forall a | a in s.addressCache :: s.addressCache[a] in s.heap
    ensures var s' := Removed(s, base);
            && s'.heap == s.heap && s'.images == s.images - {base}
            && (forall a :: a in s'.addressCache <==> a in s.addressCache && s.heap[s.addressCache[a]].base != base)
            && (forall a | a in s'.addressCache :: s'.addressCache[a] == s.addressCache[a])
  {
    hide PoolIsFree;
  }

  /** Removing a list of images removes these, and every cached address that led to them. */
  lemma {:induction false} RemoveAllRemoves<Ref>(s: State<Ref>, bases: seq<uint64>)
    requires Inv(s)
    ensures var s' := RemoveAll(s, bases);
            && s'.heap == s.heap
            && (forall b :: b in s'.images <==> b in s.images && b !in bases)
            && (forall b | b in s'.images :: s'.images[b] == s.images[b])
            && (forall a :: a in s'.addressCache <==> a in s.addressCache && s.heap[s.addressCache[a]].base !in bases)
  {
    hide Inv, Removed;
    CachedAreRecords(s);
    if bases != [] {
      var before := RemoveAll(s, bases[..|bases| - 1]);
      RemoveAllRemoves(s, bases[..|bases| - 1]);
      RemoveAllKeepsInvariant(s, bases[..|bases| - 1]);
      CacheOnlyShrinks(s, bases[..|bases| - 1]);
      RemovedOne(before, bases[|bases| - 1]);
      assert bases == bases[..|bases| - 1] + [bases[|bases| - 1]];
    }
  }

  lemma {:induction false} CacheOnlyShrinks<Ref>(s: State<Ref>, bases: seq<uint64>)
    ensures var s' := RemoveAll(s, bases);
            forall a | a in s'.addressCache :: a in s.addressCache && s'.addressCache[a] == s.addressCache[a]
  {
    if bases != [] {
      CacheOnlyShrinks(s, bases[..|bases| - 1]);
    }
  }

  /**
   Loading an image again counts it and leaves its mark, whatever the count: the next cleanup
   removes it exactly when it is marked and the mark has expired.
   */
  lemma ReloadedImageRemovedExactly<Ref>(s: State<Ref>, o: Ref, base: uint64, size: uint64, name: string,
                                         threshold: nat, order: seq<uint64>)
    requires Inv(s) && base in s.images && base != 0 && size != 0 && IsOrderOf(order, Expired(s.terminated, threshold))
    ensures var s' := Added(s, o, base, size, name);
            && s'.terminated == s.terminated && s'.images == s.images
            && s'.heap[s'.images[base]].refCount == s.heap[s.images[base]].refCount + 1
            && (base !in RemoveAll(s', order).images <==> base in s.terminated && s.terminated[base] < threshold)
  {
    AddImageKeepsInvariant(s, o, base, size, name);
    RemoveAllRemoves(Added(s, o, base, size, name), order);
  }

  // ---- marks and removals over whole runs ----

  /** Event e unloads the image and finds its count at zero or below. */
  ghost predicate Drops<Ref>(s: State<Ref>, e: Event<Ref>, base: uint64) {
    && e.ImageUnloaded? && e.base == base && base in s.images && s.images[base] in s.heap
    && s.heap[s.images[base]].refCount - 1 <= 0
  }

  lemma {:induction false} RemoveAllKeepsOtherMarks<Ref>(s: State<Ref>, bases: seq<uint64>, base: uint64)
    requires base !in bases
    ensures var marks := RemoveAll(s, bases).terminated;
            (base in marks <==> base in s.terminated) && (base in marks ==> marks[base] == s.terminated[base])
  {
    if bases != [] {
      RemoveAllKeepsOtherMarks(s, bases[..|bases| - 1], base);
    }
  }

  /** What one event does to the mark of an image that is loaded after it. */
  lemma MarkStep<Ref>(s: State<Ref>, e: Event<Ref>, s': State<Ref>, base: uint64)
    requires Inv(s) && Next(s, e, s') && base in s'.images
    ensures base !in s.images ==> base !in s'.terminated
    ensures Drops(s, e, base) ==> base in s'.terminated && s'.terminated[base] == e.generation
    ensures base in s.images && !Drops(s, e, base) ==>
              (base in s'.terminated <==> base in s.terminated)
              && (base in s'.terminated ==> s'.terminated[base] == s.terminated[base])
  {
    hide CacheAgrees, PoolIsFree;
    if e.ImagesCleaned? {
      RemoveAllRemoves(s, e.order);
      RemoveAllKeepsOtherMarks(s, e.order, base);
    }
  }

  /** Only a cleanup takes an image away, and only one whose mark has expired; only a load brings one. */
  lemma ImageStep<Ref>(s: State<Ref>, e: Event<Ref>, s': State<Ref>, base: uint64)
    requires Inv(s) && Next(s, e, s')
    ensures base in s.images ==>
              (base in s'.images
               <==> !(e.ImagesCleaned? && base in s.terminated && s.terminated[base] < e.threshold))
    ensures base !in s.images && base in s'.images ==> e.ImageLoaded? && e.base == base
  {
    hide CacheAgrees, PoolIsFree, Covers;
    if e.ImagesCleaned? {
      RemoveAllRemoves(s, e.order);
    }
  }

  /**
   Event i dropped the count of the image to zero or below, the image has stayed loaded up to
   state n, and no event in between did so again.
   */
  ghost predicate LastDrop<Ref>(states: seq<State<Ref>>, events: seq<Event<Ref>>, base: uint64, i: int, n: nat)
    requires |states| == |events| + 1 && n <= |events|
  {
    && 0 <= i < n && Drops(states[i], events[i], base)
    && (forall x | i < x <= n :: base in states[x].images)
    && (forall x | i < x < n :: !Drops(states[x], events[x], base))
  }

  lemma LastDropStep<Ref>(states: seq<State<Ref>>, events: seq<Event<Ref>>, base: uint64, i: int, n: nat)
    requires |states| == |events| + 1 && 0 < n <= |events| && base in states[n].images
    ensures LastDrop(states, events, base, i, n)
            <==> if Drops(states[n - 1], events[n - 1], base) then i == n - 1
                 else LastDrop(states, events, base, i, n - 1)
  {
    hide Drops;
    assert Drops(states[n - 1], events[n - 1], base) ==> base in states[n - 1].images by {
      DropsLoaded(states[n - 1], events[n - 1], base);
    }
  }

  lemma DropsLoaded<Ref>(s: State<Ref>, e: Event<Ref>, base: uint64)
    ensures Drops(s, e, base) ==> e.ImageUnloaded? && base in s.images
  {
  }

  /**
   In every reachable state a loaded image is marked if and only if its count fell to zero or below
   at some unload since it was stored; the mark carries the generation of the latest such unload,
   whatever was loaded again since then.
   */
  lemma {:induction false} MarkedExactly<Ref>(states: seq<State<Ref>>, events: seq<Event<Ref>>, base: uint64, n: nat)
    requires IsRun(states, events) && n <= |events| && base in states[n].images
    ensures base in states[n].terminated <==> exists i :: LastDrop(states, events, base, i, n)
    ensures forall i | LastDrop(states, events, base, i, n) ::
              base in states[n].terminated && states[n].terminated[base] == events[i].generation
  {
    hide Inv, Drops, Next;
    if n > 0 {
      RunKeepsInvariant(states, events, n - 1);
      assert Next(states[n - 1], events[n - 1], states[n - 1 + 1]);
      MarkStep(states[n - 1], events[n - 1], states[n], base);
      if base in states[n - 1].images {
        MarkedExactly(states, events, base, n - 1);
      }
      assert Drops(states[n - 1], events[n - 1], base) ==> LastDrop(states, events, base, n - 1, n);
      forall i
        ensures LastDrop(states, events, base, i, n) ==>
                  && 0 <= i < n && events[i].ImageUnloaded? && base in states[n].terminated
                  && states[n].terminated[base] == events[i].generation
        ensures !Drops(states[n - 1], events[n - 1], base) ==>
                  (LastDrop(states, events, base, i, n) <==> LastDrop(states, events, base, i, n - 1))
      {
        LastDropStep(states, events, base, i, n);
        if 0 <= i < n {
          DropsLoaded(states[i], events[i], base);
        }
      }
    }
  }

  /**
   A cleanup removes a loaded image, in use or not, if and only if its count fell to zero or below
   at some unload since it was stored, and the latest such unload is older than the threshold.
   */
  lemma RemovedExactly<Ref>(states: seq<State<Ref>>, events: seq<Event<Ref>>, base: uint64, n: nat)
    requires IsRun(states, events) && n < |events| && events[n].ImagesCleaned? && base in states[n].images
    ensures base !in states[n + 1].images
            <==> exists i :: LastDrop(states, events, base, i, n) && events[i].generation < events[n].threshold
  {
    hide Inv, Drops;
    RunKeepsInvariant(states, events, n);
    MarkedExactly(states, events, base, n);
    assert Next(states[n], events[n], states[n + 1]);
    RemoveAllRemoves(states[n], events[n].order);
  }

  /** Loaded, unloaded, loaded again: the image is in use, and the next cleanup takes it away. */
  lemma InUseImageRemoved(base: uint64, size: uint64, name: string)
    returns (states: seq<State<nat>>, events: seq<Event<nat>>)
    requires base != 0 && size != 0
    ensures IsRun(states, events) && |events| == 4
    ensures base in states[3].images && states[3].images[base] in states[3].heap
    ensures states[3].heap[states[3].images[base]].refCount == 1 && base !in states[4].images
  {
    var load := ImageLoaded(0, base, size, name);
    var s1 := Added(Init(), 0, base, size, name);
    var s2 := Unloaded(s1, base, 0);
    var s3 := Added(s2, 0, base, size, name);
    states := [Init(), s1, s2, s3, RemoveAll(s3, [base])];
    events := [load, ImageUnloaded(base, 0), load, ImagesCleaned(1, [base])];
    assert [base][..0] == [];
  }

  // ---- the count, over runs ----

  /** Loads of the image less its unloads, from event a up to state n. */
  function NetLoads<Ref>(events: seq<Event<Ref>>, base: uint64, a: nat, n: nat): int
    requires a <= n <= |events|
    decreases n - a
  {
    if a == n then 0
    else
      var e := events[n - 1];
      NetLoads(events, base, a, n - 1)
      + (if e.ImageLoaded? && e.base == base && e.size != 0 then 1
         else if e.ImageUnloaded? && e.base == base then -1 else 0)
  }

  lemma CountStep<Ref>(s: State<Ref>, e: Event<Ref>, s': State<Ref>, base: uint64)
    requires Inv(s) && Next(s, e, s') && base != 0 && base in s.images && base in s'.images
    ensures s'.images[base] == s.images[base] && s.images[base] in s.heap && s'.images[base] in s'.heap
    ensures s'.heap[s'.images[base]].refCount
            == s.heap[s.images[base]].refCount
               + (if e.ImageLoaded? && e.base == base && e.size != 0 then 1
                  else if e.ImageUnloaded? && e.base == base then -1 else 0)
    ensures s'.heap[s'.images[base]] == s.heap[s.images[base]].(refCount := s'.heap[s'.images[base]].refCount)
  {
    hide CacheAgrees, Covers, PoolIsFree;
    if e.ImagesCleaned? {
      RemoveAllRemoves(s, e.order);
    } else if e.ImageLoaded? && e.base != 0 && e.size != 0 && e.base !in s.images {
      OthersHold(s, e.o, base);
    }
  }

  lemma OthersHold<Ref>(s: State<Ref>, o: Ref, base: uint64)
    requires Inv(s) && Available(s, o) && base in s.images
    ensures s.images[base] != o
  {
    assert Loaded(s.images, s.heap, s.images[base]);
  }

  /** As long as an image stays loaded it keeps its record, size and name, and its count is loads less unloads. */
  lemma {:induction false} CountIsNetLoads<Ref>(states: seq<State<Ref>>, events: seq<Event<Ref>>, base: uint64,
                                                a: nat, n: nat)
    requires IsRun(states, events) && a <= n <= |events| && base != 0
    requires forall x | a <= x <= n :: base in states[x].images
    ensures states[a].images[base] in states[a].heap && states[n].images[base] in states[n].heap
    ensures states[n].images[base] == states[a].images[base]
    ensures var x, y := states[a].heap[states[a].images[base]], states[n].heap[states[n].images[base]];
            && y == x.(refCount := y.refCount)
            && y.refCount == x.refCount + NetLoads(events, base, a, n)
    decreases n - a
  {
    hide Inv, Next;
    RunKeepsInvariant(states, events, a);
    LoadedInHeap(states[a], base);
    if a < n {
      CountIsNetLoads(states, events, base, a, n - 1);
      RunKeepsInvariant(states, events, n - 1);
      assert Next(states[n - 1], events[n - 1], states[n - 1 + 1]);
      CountStep(states[n - 1], events[n - 1], states[n], base);
    }
  }

  lemma LoadedInHeap<Ref>(s: State<Ref>, base: uint64)
    requires Inv(s) && base in s.images
    ensures s.images[base] in s.heap && s.heap[s.images[base]].base == base
  {
  }

  // ---- answers, over runs ----

  /** Address lookups lead to record o, an image at this base, without a scan. */
  ghost predicate Remembers<Ref>(s: State<Ref>, address: uint64, o: Ref, base: uint64) {
    address in s.addressCache && s.addressCache[address] == o && o in s.heap && s.heap[o].base == base
  }

  lemma StillRemembers<Ref>(s: State<Ref>, e: Event<Ref>, s': State<Ref>, address: uint64, o: Ref, base: uint64)
    requires Inv(s) && Next(s, e, s') && Remembers(s, address, o, base) && base in s'.images
    ensures Remembers(s', address, o, base)
  {
    hide Covers, PoolIsFree;
    if e.ImagesCleaned? {
      RemoveAllRemoves(s, e.order);
      CacheOnlyShrinks(s, e.order);
    } else if e.ImageLoaded? && e.base != 0 && e.size != 0 && e.base !in s.images {
      OthersHold(s, e.o, base);
    }
  }

  lemma LookupRemembers<Ref>(s: State<Ref>, e: Event<Ref>, s': State<Ref>)
    requires Inv(s) && Next(s, e, s') && e.AddressLookedUp? && Lookup(s, e.address, e.found).0.Some?
    ensures var o := Lookup(s, e.address, e.found).0.value;
            o in s.heap && Remembers(s', e.address, o, s.heap[o].base)
  {
  }

  lemma {:induction false} RemembersThrough<Ref>(states: seq<State<Ref>>, events: seq<Event<Ref>>,
                                                 address: uint64, o: Ref, base: uint64, a: nat, n: nat)
    requires IsRun(states, events) && a <= n <= |events| && Remembers(states[a], address, o, base)
    requires forall x | a <= x <= n :: base in states[x].images
    ensures Remembers(states[n], address, o, base)
    decreases n - a
  {
    hide Inv, Next, Remembers;
    if a < n {
      RemembersThrough(states, events, address, o, base, a, n - 1);
      RunKeepsInvariant(states, events, n - 1);
      assert Next(states[n - 1], events[n - 1], states[n - 1 + 1]);
      StillRemembers(states[n - 1], events[n - 1], states[n], address, o, base);
    }
  }

  /**
   An address keeps the answer it was given as long as that image stays loaded, whatever a scan
   would meet first by then, other images that hold the address included.
   */
  lemma AnswersStay<Ref>(states: seq<State<Ref>>, events: seq<Event<Ref>>, address: uint64, o: Ref, i: nat, n: nat)
    requires IsRun(states, events) && i < n < |events|
    requires events[i].AddressLookedUp? && events[i].address == address
    requires Lookup(states[i], address, events[i].found).0 == Some(o)
    requires o in states[i].heap ==> forall x | i < x <= n :: states[i].heap[o].base in states[x].images
    requires events[n].AddressLookedUp? && events[n].address == address
    ensures Lookup(states[n], address, events[n].found).0 == Some(o)
  {
    hide Inv, Next;
    RunKeepsInvariant(states, events, i);
    assert Next(states[i], events[i], states[i + 1]);
    LookupRemembers(states[i], events[i], states[i + 1]);
    RemembersThrough(states, events, address, o, states[i].heap[o].base, i + 1, n);
  }

  /** The names of the loaded images that are marked: the drivers whose statistics a scrape gives up. */
  ghost function CleanedNames<Ref>(s: State<Ref>): set<string> {
    set base | base in s.terminated && base in s.images && s.images[base] in s.heap :: s.heap[s.images[base]].name
  }

  ghost predicate HasName<Ref>(s: State<Ref>, base: uint64, name: string) {
    base in s.images && s.images[base] in s.heap && s.heap[s.images[base]].name == name
  }

  /**
   At every point of every run a name is among these if and only if an image of this name is loaded
   whose count fell to zero or below at some unload since it was stored, even if it is in use again.
   */
  lemma CleanedNamesExactly<Ref>(states: seq<State<Ref>>, events: seq<Event<Ref>>, name: string, n: nat)
    requires IsRun(states, events) && n <= |events|
    ensures name in CleanedNames(states[n])
            <==> exists base, i :: HasName(states[n], base, name) && LastDrop(states, events, base, i, n)
  {
    hide Next, LastDrop, Inv;
    RunKeepsInvariant(states, events, n);
    if base :| base in states[n].terminated && HasName(states[n], base, name) {
      MarkedExactly(states, events, base, n);
    }
    if base, i :| HasName(states[n], base, name) && LastDrop(states, events, base, i, n) {
      MarkedExactly(states, events, base, n);
    }
  }

  /** The same event, up to the choices that the manager makes itself: record, scan result and order. */
  ghost predicate SameRequest<Ref>(e: Event<Ref>, f: Event<Ref>) {
    match e
    case ImageLoaded(_, base, size, name) => f.ImageLoaded? && (f.base, f.size, f.name) == (base, size, name)
    case ImageUnloaded(_, _) => f == e
    case AddressLookedUp(address, _) => f.AddressLookedUp? && f.address == address
    case ImagesCleaned(threshold, _) => f.ImagesCleaned? && f.threshold == threshold
  }

  // ---- the manager object ----

  class ImageInfo {
    var imageBase: uint64
    var imageSize: uint64
    var imageName: string
    var refCount: int

    ghost function View(): ImageRecord
      reads this
    {
      ImageRecord(imageBase, imageSize, imageName, refCount)
    }

    constructor () {
      imageBase, imageSize, imageName, refCount := 0, 0, "", 0;
    }

    method Assign(base: uint64, size: uint64, name: string)
      modifies this
      ensures View() == ImageRecord(base, size, name, 1)
    {
      imageBase := base;
      imageSize := size;
      imageName := name;
      refCount := 1;
    }

    method AddReferences(delta: int) returns (count: int)
      modifies this
      ensures View() == old(View()).(refCount := old(View()).refCount + delta) && count == View().refCount
    {
      refCount := refCount + delta;
      count := refCount;
    }
  }

  class ImageManager {
    var images: map<uint64, ImageInfo?>
    var addressCache: map<uint64, ImageInfo?>
    var terminatedImages: map<uint64, nat>
    var imageInfoPool: multiset<ImageInfo?>
    ghost var records: set<ImageInfo>

    /** The contents of every record allocated so far. */
    ghost function Heap(): map<ImageInfo?, ImageRecord>
      reads this`records, records
    {
      map o: ImageInfo | o in records :: o.View()
    }

    ghost function View(): State<ImageInfo?>
      reads this, records
    {
      State(images, addressCache, terminatedImages, imageInfoPool, Heap())
    }

    ghost predicate Valid()
      reads this, records
    {
      Inv(View())
    }

    constructor ()
      ensures Valid() && View() == Init() && records == {}
    {
      images, addressCache, terminatedImages := map[], map[], map[];
      imageInfoPool := multiset{};
      records := {};
    }

    /** When only one record has changed, or was added, the heap is an update of the earlier one. */
    twostate lemma HeapUpdated(new info: ImageInfo)
      requires records == old(records) + {info}
      requires forall o: ImageInfo | o in old(records) && o != info :: unchanged(o)
      ensures Heap() == old(Heap())[info := info.View()]
    {
    }

    lemma ImagesAreRecords()
      requires Valid()
      ensures forall b | b in images ::
                images[b] in records && images[b] in Heap() && Heap()[images[b]] == images[b].View()
    {
    }

    /** A pooled record, any of them, or a new one. */
    method GetFromPool() returns (info: ImageInfo)
      requires Valid()
      modifies this
      ensures (info in old(imageInfoPool) && info in old(records)) || fresh(info)
      ensures imageInfoPool == old(imageInfoPool) - multiset{info}
      ensures records == old(records) + {info} && unchanged(`images, `addressCache, `terminatedImages)
    {
      if * {
        info := new ImageInfo();
      } else if imageInfoPool == multiset{} {
        info := new ImageInfo();
      } else {
        var pooled :| pooled in imageInfoPool;
        info := pooled;
      }
      imageInfoPool := imageInfoPool - multiset{info};
      records := records + {info};
    }

    /** Files a record from the pool, or a new one, under the image's base address. */
    method StoreImage(base: uint64, size: uint64, name: string) returns (info: ImageInfo)
      requires Valid() && base !in images
      modifies this, records
      ensures Valid() && fresh(records - old(records))
      ensures Available(old(View()), info)
      ensures View() == Stored(old(View()), info, ImageRecord(base, size, name, 1))
    {
      hide Inv;
      ghost var s := View();
      info := GetFromPool();
      info.Assign(base, size, name);
      images := images[base := info];
      HeapUpdated(info);
      StoreKeepsInvariant(s, info, ImageRecord(base, size, name, 1));
    }

    method AddImage(base: uint64, size: uint64, name: string) returns (ghost o: ImageInfo?)
      requires Valid()
      modifies this, records
      ensures Valid() && fresh(records - old(records))
      ensures base !in old(images) && base != 0 && size != 0 ==> Available(old(View()), o)
      ensures View() == Added(old(View()), o, base, size, name)
    {
      hide Inv, Heap;
      o := null;
      ghost var s := View();
      ImagesAreRecords();
      if base != 0 && size != 0 {
        if base in images {
          var info := images[base];
          var _ := info.AddReferences(1);
          HeapUpdated(info);
          AddImageKeepsInvariant(s, o, base, size, name);
        } else {
          o := StoreImage(base, size, name);
        }
      }
    }

    method UnloadImage(base: uint64, currentScrape: nat)
      requires Valid()
      modifies this, records
      ensures Valid() && records == old(records)
      ensures View() == Unloaded(old(View()), base, currentScrape)
    {
      hide Inv, Heap;
      ImagesAreRecords();
      UnloadImageKeepsInvariant(View(), base, currentScrape);
      if base in images {
        var info := images[base];
        var count := info.AddReferences(-1);
        if count <= 0 {
          terminatedImages := terminatedImages[base := currentScrape];
        }
        HeapUpdated(info);
      }
    }

    /** Forgets every cached address that leads to the record. */
    method InvalidateCache(info: ImageInfo?)
      modifies this`addressCache
      ensures addressCache == CacheWithout(old(addressCache), info)
    {
      ghost var cache := addressCache;
      var todo := addressCache.Keys;
      while todo != {}
        invariant todo <= cache.Keys
        invariant forall a :: a in addressCache <==> a in cache && (a in todo || cache[a] != info)
        invariant forall a | a in addressCache :: addressCache[a] == cache[a]
        decreases |todo|
      {
        var address :| address in todo;
        todo := todo - {address};
        if addressCache[address] == info {
          addressCache := addressCache - {address};
        }
      }
    }

    method RemoveImage(base: uint64)
      requires Valid()
      modifies this
      ensures Valid() && records == old(records)
      ensures View() == Removed(old(View()), base)
    {
      hide Inv;
      ghost var s := View();
      if base !in images {
        terminatedImages := terminatedImages - {base};
      } else {
        var info := images[base];
        images := images - {base};
        InvalidateCache(info);
        imageInfoPool := imageInfoPool + multiset{info};
        terminatedImages := terminatedImages - {base};
      }
      assert Heap() == s.heap;
      RemoveImageKeepsInvariant(s, base);
    }

    method GetImageForAddress(address: uint64) returns (info: ImageInfo?, ghost found: Option<ImageInfo?>)
      requires Valid()
      modifies this`addressCache
      ensures Valid()
      ensures IsScanResult(old(View()), address, found)
      ensures View() == Lookup(old(View()), address, found).1
      ensures Lookup(old(View()), address, found).0 == if info == null then None else Some(info)
    {
      ghost var s := View();
      found := None;
      info := null;
      if address in addressCache {
        info := addressCache[address];
        found := Some(info);
        return;
      }
      info := ScanImages(address);
      if info != null {
        addressCache := addressCache[address := info];
        found := Some(info);
      }
      LookupKeepsInvariant(s, address, found);
    }

    /** The first image met that covers the address, or null. */
    method ScanImages(address: uint64) returns (info: ImageInfo?)
      requires Valid()
      ensures IsScanResult(View(), address, if info == null then None else Some(info))
      ensures info != null ==> info in records
    {
      info := null;
      var todo := images.Keys;
      while todo != {} && info == null
        invariant todo <= images.Keys
        invariant info == null ==> forall b | b in images && b !in todo :: !Covers(images[b].View(), address)
        invariant info != null ==>
                    && info in records && info.imageBase in images && images[info.imageBase] == info
                    && Covers(info.View(), address)
        decreases |todo|
      {
        var base :| base in todo;
        todo := todo - {base};
        var image := images[base];
        if address >= image.imageBase && address < (image.imageBase + image.imageSize) % TWO_64 {
          info := image;
        }
      }
    }

    /** The names of all images currently marked. */
    method GetCleanedImages() returns (cleanedNames: seq<string>)
      requires Valid()
      ensures forall name :: name in cleanedNames <==> name in CleanedNames(View())
    {
      hide CacheAgrees, PoolIsFree;
      cleanedNames := [];
      var todo := terminatedImages.Keys;
      while todo != {}
        invariant todo <= terminatedImages.Keys
        invariant forall name | name in cleanedNames :: name in CleanedNames(View())
        invariant forall base | base in terminatedImages && base !in todo && base in images ::
                    images[base].imageName in cleanedNames
        decreases |todo|
      {
        var base :| base in todo;
        todo := todo - {base};
        if base in images {
          cleanedNames := cleanedNames + [images[base].imageName];
        }
      }
    }

    method CleanupTerminated(threshold: nat) returns (cleanedImages: nat, ghost order: seq<uint64>)
      requires Valid()
      modifies this
      ensures Valid() && records == old(records)
      ensures IsOrderOf(order, Expired(old(terminatedImages), threshold))
      ensures View() == RemoveAll(old(View()), order) && cleanedImages == |order|
    {
      ghost var s := View();
      var imagesToClean := CollectExpired(threshold);
      order := imagesToClean;
      cleanedImages := 0;
      for i := 0 to |imagesToClean|
        invariant Valid() && records == old(records)
        invariant View() == RemoveAll(s, imagesToClean[..i]) && cleanedImages == i
      {
        RemoveImage(imagesToClean[i]);
        assert imagesToClean[..i + 1][..i] == imagesToClean[..i];
        cleanedImages := cleanedImages + 1;
      }
      assert imagesToClean[..|imagesToClean|] == imagesToClean;
    }

    /** The marked bases whose mark has expired, each once. */
    method CollectExpired(threshold: nat) returns (imagesToClean: seq<uint64>)
      ensures IsOrderOf(imagesToClean, Expired(terminatedImages, threshold))
    {
      imagesToClean := [];
      var todo := terminatedImages.Keys;
      while todo != {}
        invariant todo <= terminatedImages.Keys
        invariant forall b | b in imagesToClean :: b in Expired(terminatedImages, threshold) && b !in todo
        invariant forall b | b in Expired(terminatedImages, threshold) && b !in todo :: b in imagesToClean
        invariant forall i, j | 0 <= i < j < |imagesToClean| :: imagesToClean[i] != imagesToClean[j]
        decreases |todo|
      {
        var base :| base in todo;
        todo := todo - {base};
        if terminatedImages[base] < threshold {
          imagesToClean := imagesToClean + [base];
        }
      }
    }

    /** Each event moves the manager one step, for some choice of record, scan result or order. */
    method Handle(e: Event<ImageInfo?>) returns (ghost fired: Event<ImageInfo?>)
      requires Valid()
      modifies this, records
      ensures Valid() && fresh(records - old(records))
      ensures SameRequest(e, fired) && Next(old(View()), fired, View())
    {
      hide Inv, ImageManager.View, ImageManager.Heap, Added, Unloaded, Lookup, RemoveAll, IsScanResult,
           IsOrderOf, Expired;
      LoadedAreRecords();
      match e {
        case ImageLoaded(_, base, size, name) =>
          ghost var o := AddImage(base, size, name);
          fired := ImageLoaded(o, base, size, name);
        case ImageUnloaded(base, generation) =>
          UnloadImage(base, generation);
          fired := e;
        case AddressLookedUp(address, _) =>
          ghost var found;
          var _, found' := GetImageForAddress(address);
          found := found';
          fired := AddressLookedUp(address, found);
        case ImagesCleaned(threshold, _) =>
          ghost var order;
          var _, order' := CleanupTerminated(threshold);
          order := order';
          fired := ImagesCleaned(threshold, order);
      }
    }

    lemma LoadedAreRecords()
      requires Valid()
      ensures forall b | b in View().images :: View().images[b] in View().heap
      ensures View().images == images && View().terminated == terminatedImages
    {
    }
  }
}
