/** The in-process embedding cache: a map with access sequence numbers standing in for a
    recency list, and the encoder in front of it. */
module LruCache {
  import opened Wrappers
  import opened Recency
  import Text

  type Vector = seq<real>
  type Entries<!K> = map<K, (nat, Vector)>

  /** What the cache means: its texts from most to least recently used, and their embeddings. */
  datatype Cache = Cache(order: seq<string>, values: map<string, Vector>)

  const EMPTY := Cache([], map[])

  /** A cache of capacity 0 still keeps the text it has just inserted. */
  function Room(capacity: nat): nat
  {
    if capacity == 0 then 1 else capacity
  }

  function Touched(c: Cache, key: string): Cache
  {
    Cache(MoveToFront(c.order, key), c.values)
  }

  function Inserted(c: Cache, key: string, value: Vector, capacity: nat): Cache
  {
    var order := Take(MoveToFront(c.order, key), Room(capacity));
    var values := c.values[key := value];
    Cache(order, map k | k in values && k in order :: values[k])
  }

  /** One section under the cache's lock. */
  datatype Section = Get(text: string) | Insert(text: string, value: Vector)

  function Stepped(c: Cache, section: Section, capacity: nat): Cache
  {
    match section
    case Get(text) => if text in c.values then Touched(c, text) else c
    case Insert(text, value) => Inserted(c, text, value, capacity)
  }

  function AfterFrom(c: Cache, run: seq<Section>, capacity: nat): Cache
  {
    if run == [] then c else Stepped(AfterFrom(c, run[..|run| - 1], capacity), run[|run| - 1], capacity)
  }

  /** One encode request. On a miss the lock is free while the embedding service is asked:
      `meanwhile` is what other requests do then, and `reply` what the service answers. */
  function Encoded(c: Cache, text: string, reply: Result<Vector, string>, meanwhile: seq<Section>, capacity: nat): (Cache, Result<Vector, string>)
  {
    if Text.Trim(text) == "" then (c, Success([]))
    else if text in c.values then (Touched(c, text), Success(c.values[text]))
    else
      var later := AfterFrom(c, meanwhile, capacity);
      if reply.Failure? then (later, reply) else (Inserted(later, text, reply.value, capacity), reply)
  }

  /** The embeddings a table of numbered entries holds. */
  function ValuesOf<K>(entries: Entries<K>): map<K, Vector>
  {
    map k | k in entries :: entries[k].1
  }

  ghost predicate Within<K>(kept: Entries<K>, entries: Entries<K>)
  {
    forall k | k in kept :: k in entries && kept[k] == entries[k]
  }

  /** Later in `order` means a smaller sequence number. */
  ghost predicate Descending<K>(entries: Entries<K>, order: seq<K>)
  {
    && (forall i | 0 <= i < |order| :: order[i] in entries)
    && (forall i, j | 0 <= i < j < |order| :: entries[order[i]].0 > entries[order[j]].0)
  }

  /** The stored sequence numbers rank the texts exactly as `order` does. */
  ghost predicate Ranks<K>(entries: Entries<K>, counter: nat, order: seq<K>)
  {
    && Distinct(order)
    && Descending(entries, order)
    && (forall k | k in entries :: k in order && entries[k].0 <= counter)
  }

  class LruEmbeddingCache {
    var entries: Entries<string>
    var counter: nat
    const capacity: nat
    ghost var order: seq<string>

    ghost predicate Valid()
      reads this
    {
      Ranks(entries, counter, order) && |order| <= Room(capacity)
    }

    ghost function Contents(): Cache
      reads this
    {
      Cache(order, ValuesOf(entries))
    }

    constructor (capacity: nat)
      ensures Valid() && Contents() == EMPTY && this.capacity == capacity
    {
      this.capacity := capacity;
      entries, counter, order := map[], 0, [];
    }

    method Get(key: string) returns (found: Option<Vector>)
      requires Valid()
      modifies this
      ensures Valid()
      ensures key in old(Contents()).values ==>
                found == Some(old(Contents()).values[key]) && Contents() == Touched(old(Contents()), key)
      ensures key !in old(Contents()).values ==> found == None && Contents() == old(Contents())
    {
      if key !in entries {
        return None;
      }
      ghost var before := entries;
      found := Some(entries[key].1);
      counter := counter + 1;
      entries := entries[key := (counter, entries[key].1)];
      HitStep(before, counter - 1, order, key, entries);
      order := MoveToFront(order, key);
    }

    /** The scan for the entry with the smallest sequence number. */
    method LeastRecent() returns (lru: string)
      requires Valid() && entries != map[]
      ensures |order| > 0 && lru == order[|order| - 1]
    {
      var rest := entries.Keys;
      lru :| lru in rest;
      rest := rest - {lru};
      while rest != {}
        invariant rest <= entries.Keys && lru in entries
        invariant forall k | k in entries && k !in rest :: entries[lru].0 <= entries[k].0
        decreases rest
      {
        var k :| k in rest;
        if entries[k].0 < entries[lru].0 {
          lru := k;
        }
        rest := rest - {k};
      }
      assert lru in order && order[|order| - 1] in entries;
    }

    /** Evict the least recent entry when a new key finds the cache full. */
    method MakeRoom(key: string)
      requires Valid()
      modifies this
      ensures Ranks(entries, counter, order) && counter == old(counter)
      ensures order == Evicted(old(order), key, Room(capacity))
      ensures Within(entries, old(entries))
    {
      Eviction(entries, counter, order, key, capacity);
      if |entries| >= capacity && key !in entries {
        if entries != map[] {
          var lru := LeastRecent();
          entries := entries - {lru};
          order := order[..|order| - 1];
        }
      }
    }

    method Insert(key: string, value: Vector)
      requires Valid()
      modifies this
      ensures Valid()
      ensures Contents() == Inserted(old(Contents()), key, value, capacity)
    {
      ghost var was, before := entries, order;
      MakeRoom(key);
      ghost var kept := entries;
      counter := counter + 1;
      entries := entries[key := (counter, value)];
      InsertStep(was, before, kept, order, counter - 1, key, value, capacity, entries);
      order := MoveToFront(order, key);
    }
  }

  class Encoder {
    const cache: LruEmbeddingCache

    constructor (capacity: nat)
      ensures fresh(cache) && cache.Valid() && cache.Contents() == EMPTY && cache.capacity == capacity
    {
      cache := new LruEmbeddingCache(capacity);
    }

    /** What other requests do while this one waits for the embedding service. */
    method Elapse(meanwhile: seq<Section>)
      requires cache.Valid()
      modifies cache
      ensures cache.Valid() && cache.Contents() == AfterFrom(old(cache.Contents()), meanwhile, cache.capacity)
    {
      for i := 0 to |meanwhile|
        invariant cache.Valid() && cache.Contents() == AfterFrom(old(cache.Contents()), meanwhile[..i], cache.capacity)
      {
        assert meanwhile[..i + 1][..i] == meanwhile[..i];
        match meanwhile[i] {
          case Get(text) => var _ := cache.Get(text);
          case Insert(text, value) => cache.Insert(text, value);
        }
      }
      assert meanwhile[..|meanwhile|] == meanwhile;
    }

    /** `reply` is what the embedding service would answer for `text`. */
    method Encode(text: string, reply: Result<Vector, string>, meanwhile: seq<Section>) returns (answer: Result<Vector, string>)
      requires cache.Valid()
      modifies cache
      ensures cache.Valid()
      ensures (cache.Contents(), answer) == Encoded(old(cache.Contents()), text, reply, meanwhile, cache.capacity)
    {
      if Text.Trim(text) == "" {
        return Success([]);
      }
      var cached := cache.Get(text);
      if cached.Some? {
        return Success(cached.value);
      }
      Elapse(meanwhile);
      if reply.Failure? {
        return reply;
      }
      cache.Insert(text, reply.value);
      return reply;
    }
  }

  // -- Sequence numbers against the recency list -----------------------------------------

  lemma DescendingRest<K>(entries: Entries<K>, order: seq<K>)
    requires order != [] && Descending(entries, order)
    ensures Descending(entries, order[1..])
  {
  }

  lemma FirstIsLatest<K>(entries: Entries<K>, order: seq<K>, later: K)
    requires order != [] && Descending(entries, order) && later in order[1..]
    ensures later in entries && entries[order[0]].0 > entries[later].0
  {
    var j :| 0 <= j < |order| - 1 && order[1..][j] == later;
    assert order[j + 1] == later;
  }

  lemma {:induction false} DescendingWithout<K>(entries: Entries<K>, order: seq<K>, key: K)
    requires Descending(entries, order)
    ensures Descending(entries, Without(order, key))
  {
    if order != [] {
      var rest := order[1..];
      DescendingRest(entries, order);
      DescendingWithout(entries, rest, key);
      WithoutMembers(rest, key);
      var w := Without(rest, key);
      forall i | 0 <= i < |w| ensures entries[w[i]].0 < entries[order[0]].0 {
        FirstIsLatest(entries, order, w[i]);
      }
      DescendingFront(entries, order[0], w);
    }
  }

  lemma DescendingFront<K>(entries: Entries<K>, key: K, rest: seq<K>)
    requires key in entries && Descending(entries, rest)
    requires forall i | 0 <= i < |rest| :: entries[rest[i]].0 < entries[key].0
    ensures Descending(entries, [key] + rest)
  {
  }

  lemma DescendingUpdated<K>(entries: Entries<K>, rest: seq<K>, key: K, entry: (nat, Vector))
    requires Descending(entries, rest) && key !in rest
    ensures Descending(entries[key := entry], rest)
  {
    assert forall i | 0 <= i < |rest| :: entries[key := entry][rest[i]] == entries[rest[i]];
  }

  lemma RankStep<K>(entries: Entries<K>, counter: nat, order: seq<K>, key: K, value: Vector)
    requires Ranks(entries, counter, order)
    ensures Ranks(entries[key := (counter + 1, value)], counter + 1, MoveToFront(order, key))
  {
    var after, rest := entries[key := (counter + 1, value)], Without(order, key);
    MoveToFrontKeeps(order, key);
    WithoutMembers(order, key);
    DescendingWithout(entries, order, key);
    DescendingUpdated(entries, rest, key, (counter + 1, value));
    DescendingFront(after, key, rest);
  }

  lemma DropLast<K>(entries: Entries<K>, counter: nat, order: seq<K>)
    requires Ranks(entries, counter, order) && order != []
    ensures Ranks(entries - {order[|order| - 1]}, counter, order[..|order| - 1])
  {
    var front, after := order[..|order| - 1], entries - {order[|order| - 1]};
    forall k | k in after ensures k in front {
      var i :| 0 <= i < |order| && order[i] == k;
      assert front[i] == k;
    }
    assert forall i | 0 <= i < |front| :: after[front[i]] == entries[order[i]];
  }

  lemma OrderSize<K>(entries: Entries<K>, counter: nat, order: seq<K>)
    requires Ranks(entries, counter, order)
    ensures |entries| == |order|
  {
    SizeOfDistinct(order);
    assert (set k | k in order) == entries.Keys;
  }

  /** Renumbering a hit moves it to the front and keeps every embedding. */
  lemma HitStep<K>(entries: Entries<K>, counter: nat, order: seq<K>, key: K, after: Entries<K>)
    requires Ranks(entries, counter, order) && key in entries
    requires after == entries[key := (counter + 1, entries[key].1)]
    ensures Ranks(after, counter + 1, MoveToFront(order, key))
    ensures ValuesOf(after) == ValuesOf(entries) && |MoveToFront(order, key)| == |order|
  {
    RankStep(entries, counter, order, key, entries[key].1);
    WithoutSize(order, key);
  }

  /** What is left of the recency list when `key` is about to be inserted. */
  function Evicted<K(==)>(order: seq<K>, key: K, room: nat): seq<K>
  {
    if |order| >= room && key !in order && order != [] then order[..|order| - 1] else order
  }

  /** When a new key finds the cache full, dropping the last text is the eviction meant. */
  lemma Eviction(entries: Entries<string>, counter: nat, order: seq<string>, key: string, capacity: nat)
    requires Ranks(entries, counter, order) && |order| <= Room(capacity)
    ensures if |entries| >= capacity && key !in entries && entries != map[] then
              order != [] && Evicted(order, key, Room(capacity)) == order[..|order| - 1]
              && Ranks(entries - {order[|order| - 1]}, counter, order[..|order| - 1])
              && Within(entries - {order[|order| - 1]}, entries)
            else Evicted(order, key, Room(capacity)) == order && Within(entries, entries)
  {
    OrderSize(entries, counter, order);
    if order != [] {
      DropLast(entries, counter, order);
    }
  }

  /** Evicting the last text and then moving the new one to the front is one truncated touch. */
  lemma InsertOrder<K>(order: seq<K>, key: K, room: nat)
    requires Distinct(order) && |order| <= room && 0 < room
    ensures MoveToFront(Evicted(order, key, room), key) == Take(MoveToFront(order, key), room)
    ensures |MoveToFront(Evicted(order, key, room), key)| <= room
  {
    WithoutSize(order, key);
    if |order| >= room && key !in order {
      WithoutAbsent(order, key);
      WithoutAbsent(order[..|order| - 1], key);
    }
  }

  lemma InsertValues<K>(entries: Entries<K>, kept: Entries<K>, key: K, value: Vector, seqNo: nat, order: seq<K>)
    requires Within(kept, entries)
    requires forall k :: k in order <==> k == key || k in kept
    ensures ValuesOf(kept[key := (seqNo, value)])
            == map k | k in ValuesOf(entries)[key := value] && k in order :: ValuesOf(entries)[key := value][k]
  {
  }

  lemma InsertStep(was: Entries<string>, before: seq<string>, kept: Entries<string>, order: seq<string>, counter: nat,
                   key: string, value: Vector, capacity: nat, after: Entries<string>)
    requires Distinct(before) && |before| <= Room(capacity)
    requires order == Evicted(before, key, Room(capacity))
    requires Ranks(kept, counter, order) && Within(kept, was)
    requires after == kept[key := (counter + 1, value)]
    ensures Ranks(after, counter + 1, MoveToFront(order, key))
    ensures |MoveToFront(order, key)| <= Room(capacity)
    ensures Cache(MoveToFront(order, key), ValuesOf(after)) == Inserted(Cache(before, ValuesOf(was)), key, value, capacity)
  {
    InsertOrder(before, key, Room(capacity));
    RankStep(kept, counter, order, key, value);
    MoveToFrontKeeps(order, key);
    InsertValues(was, kept, key, value, counter + 1, MoveToFront(order, key));
  }

  // -- Runs ------------------------------------------------------------------------------

  /** The cache after any interleaving of the locked sections of any number of requests. */
  function After(run: seq<Section>, capacity: nat): Cache
  {
    AfterFrom(EMPTY, run, capacity)
  }

  /** The text a section serves: every insertion, and every lookup that hits. */
  function ServedBy(c: Cache, section: Section): seq<string>
  {
    if section.Insert? || section.text in c.values then [section.text] else []
  }

  /** The texts served in a run, oldest first. */
  function Served(run: seq<Section>, capacity: nat): seq<string>
  {
    if run == [] then []
    else Served(run[..|run| - 1], capacity) + ServedBy(After(run[..|run| - 1], capacity), run[|run| - 1])
  }

  /** The cache holds exactly the texts it lists. */
  ghost predicate Consistent(c: Cache)
  {
    Distinct(c.order) && forall k :: k in c.order <==> k in c.values
  }

  lemma SteppedKeeps(c: Cache, section: Section, capacity: nat, uses: seq<string>)
    requires Consistent(c) && c.order == Take(RecencyOf(uses), Room(capacity))
    ensures var after := Stepped(c, section, capacity);
            Consistent(after) && after.order == Take(RecencyOf(uses + ServedBy(c, section)), Room(capacity))
  {
    RecencyMembers(uses);
    MoveToFrontKeeps(c.order, section.text);
    TakeOfTouch(RecencyOf(uses), section.text, Room(capacity));
    assert (uses + [section.text])[..|uses|] == uses;
    assert uses + [] == uses;
  }

  /** However requests overlap, the cache is the first `capacity` entries of the recency list of
      the texts it served. */
  lemma {:induction false} HoldsMostRecent(run: seq<Section>, capacity: nat)
    ensures Consistent(After(run, capacity))
    ensures After(run, capacity).order == Take(RecencyOf(Served(run, capacity)), Room(capacity))
  {
    if run != [] {
      var front := run[..|run| - 1];
      HoldsMostRecent(front, capacity);
      SteppedKeeps(After(front, capacity), run[|run| - 1], capacity, Served(front, capacity));
    }
  }

  /** A list cut to the room there is has the smaller of the two sizes. */
  lemma SizeOfCache(c: Cache, uses: seq<string>, room: nat)
    requires Consistent(c) && c.order == Take(RecencyOf(uses), room)
    ensures var distinct := |set k | k in uses|;
            |c.values| == if distinct <= room then distinct else room
  {
    RecencyMembers(uses);
    SizeOfDistinct(RecencyOf(uses));
    assert (set k | k in RecencyOf(uses)) == (set k | k in uses);
    SizeOfDistinct(c.order);
    assert (set k | k in c.order) == c.values.Keys;
  }

  /** A text is cached exactly when it was served and fewer than `capacity` distinct texts were
      served since; so the cache holds as many texts as it has room for. */
  lemma CachedIffRecent(run: seq<Section>, capacity: nat, text: string)
    ensures text in After(run, capacity).values
            <==> text in Served(run, capacity) && |Since(Served(run, capacity), text)| < Room(capacity)
    ensures var distinct := |set k | k in Served(run, capacity)|;
            |After(run, capacity).values| == if distinct <= Room(capacity) then distinct else Room(capacity)
  {
    HoldsMostRecent(run, capacity);
    var c, uses := After(run, capacity), Served(run, capacity);
    RecencyMembers(uses);
    if text in uses {
      RecencyIsStackDistance(uses, text);
      TakenIffFewBefore(RecencyOf(uses), Room(capacity), text);
    }
    SizeOfCache(c, uses, Room(capacity));
  }

  /** With an embedding service that always gives a text the same embedding, every embedding in
      the cache, and so every embedding a lookup finds, is its text's own. */
  lemma {:induction false} EmbeddingsAreOwn(run: seq<Section>, capacity: nat, embed: string -> Vector)
    requires forall i | 0 <= i < |run| && run[i].Insert? :: run[i].value == embed(run[i].text)
    ensures forall k | k in After(run, capacity).values :: After(run, capacity).values[k] == embed(k)
  {
    if run != [] {
      EmbeddingsAreOwn(run[..|run| - 1], capacity, embed);
    }
  }

  /** ... and so is every embedding a request is answered with. */
  lemma AnswersAreOwn(run: seq<Section>, capacity: nat, embed: string -> Vector,
                      text: string, reply: Result<Vector, string>, meanwhile: seq<Section>)
    requires forall i | 0 <= i < |run| && run[i].Insert? :: run[i].value == embed(run[i].text)
    requires Text.Trim(text) != "" && (reply.Success? ==> reply.value == embed(text))
    ensures var answer := Encoded(After(run, capacity), text, reply, meanwhile, capacity).1;
            if answer.Success? then answer.value == embed(text) else reply.Failure? && text !in After(run, capacity).values
  {
    EmbeddingsAreOwn(run, capacity, embed);
  }

  /** A text of nothing but white space is answered with an empty embedding, and leaves no trace. */
  lemma BlankIsAnsweredEmpty(c: Cache, text: string, reply: Result<Vector, string>, meanwhile: seq<Section>, capacity: nat)
    requires forall i | 0 <= i < |text| :: Text.IsSpace(text[i])
    ensures Encoded(c, text, reply, meanwhile, capacity) == (c, Success([]))
  {
    Text.BlankIffAllSpace(text);
  }

  // -- Requests --------------------------------------------------------------------------

  /** The locked sections of one request, with those of others in between. */
  function SectionsOf(c: Cache, text: string, reply: Result<Vector, string>, meanwhile: seq<Section>): seq<Section>
  {
    if Text.Trim(text) == "" then []
    else if text in c.values then [Get(text)]
    else [Get(text)] + meanwhile + (if reply.Success? then [Insert(text, reply.value)] else [])
  }

  lemma {:induction false} AfterMore(c: Cache, run: seq<Section>, more: seq<Section>, capacity: nat)
    ensures AfterFrom(c, run + more, capacity) == AfterFrom(AfterFrom(c, run, capacity), more, capacity)
  {
    if more == [] {
      assert run + more == run;
    } else {
      AfterMore(c, run, more[..|more| - 1], capacity);
      assert (run + more)[..|run + more| - 1] == run + more[..|more| - 1];
    }
  }

  lemma AfterOne(c: Cache, section: Section, capacity: nat)
    ensures AfterFrom(c, [section], capacity) == Stepped(c, section, capacity)
  {
    assert [section][..0] == [];
  }

  /** A request is its sections, so what holds after every run of sections holds after every run
      of requests, overlapping or not. */
  lemma RequestIsSections(c: Cache, text: string, reply: Result<Vector, string>, meanwhile: seq<Section>, capacity: nat)
    ensures Encoded(c, text, reply, meanwhile, capacity).0 == AfterFrom(c, SectionsOf(c, text, reply, meanwhile), capacity)
  {
    AfterOne(c, Get(text), capacity);
    AfterMore(c, [Get(text)], meanwhile, capacity);
    if reply.Success? {
      var later, insert := AfterFrom(c, meanwhile, capacity), Insert(text, reply.value);
      AfterMore(c, [Get(text)] + meanwhile, [insert], capacity);
      AfterOne(later, insert, capacity);
    } else {
      assert [Get(text)] + meanwhile + [] == [Get(text)] + meanwhile;
    }
  }

  datatype Request = Request(text: string, reply: Result<Vector, string>)

  /** The cache after requests that do not overlap. */
  function AfterRequests(requests: seq<Request>, capacity: nat): Cache
  {
    if requests == [] then EMPTY
    else
      var r := requests[|requests| - 1];
      Encoded(AfterRequests(requests[..|requests| - 1], capacity), r.text, r.reply, [], capacity).0
  }

  /** What a request does to the recency list. */
  lemma RequestOrder(c: Cache, r: Request, capacity: nat)
    requires Consistent(c) && |c.order| <= Room(capacity)
    ensures var after := Encoded(c, r.text, r.reply, [], capacity).0;
            Consistent(after)
            && after.order == if Text.Trim(r.text) == "" then c.order else Used(c.order, r.text, r.reply.Success?, Room(capacity))
  {
    MoveToFrontKeeps(c.order, r.text);
  }

  /** On the same requests, answered or failed, a smaller cache's list is contained in a larger
      one's, and is full unless the two are equal. */
  lemma {:induction false} CachesNested(requests: seq<Request>, small: nat, large: nat)
    requires small <= large
    ensures Consistent(AfterRequests(requests, small)) && Consistent(AfterRequests(requests, large))
    ensures Nested(AfterRequests(requests, small).order, AfterRequests(requests, large).order, Room(small), Room(large))
  {
    if requests != [] {
      var front, r := requests[..|requests| - 1], requests[|requests| - 1];
      CachesNested(front, small, large);
      var a, b := AfterRequests(front, small), AfterRequests(front, large);
      RequestOrder(a, r, small);
      RequestOrder(b, r, large);
      UsedKeepsNested(a.order, b.order, r.text, r.reply.Success?, Room(small), Room(large));
    }
  }

  /** A smaller cache never holds a text a larger one has lost. */
  lemma SmallerIsIncluded(requests: seq<Request>, small: nat, large: nat)
    requires small <= large
    ensures AfterRequests(requests, small).values.Keys <= AfterRequests(requests, large).values.Keys
  {
    CachesNested(requests, small, large);
    SublistMembers(AfterRequests(requests, small).order, AfterRequests(requests, large).order);
  }
}
