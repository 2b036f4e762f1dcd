/** The chunk cache of the file service: a list of nodes and an index of list
    positions that must agree, against a plain recency list, and the reads that
    go through it. */
module LruCache {

  import opened Common

  // A normalised path, as its components.
  datatype Key = Key(path: seq<string>, offset: nat, size: nat)

  datatype Entry = Entry(key: Key, bytes: seq<Byte>)

  // ---- The plain recency list, most recent first ---------------------------------------

  function Without(entries: seq<Entry>, key: Key): (r: seq<Entry>)
    ensures |r| <= |entries| && forall e :: e in r <==> e in entries && e.key != key
  {
    if entries == [] then []
    else if entries[0].key == key then Without(entries[1..], key)
    else [entries[0]] + Without(entries[1..], key)
  }

  function Find(entries: seq<Entry>, key: Key): (r: Option<Entry>)
    ensures r.Some? ==> r.value in entries && r.value.key == key
    ensures r.None? ==> forall e :: e in entries ==> e.key != key
  {
    if entries == [] then None
    else if entries[0].key == key then Some(entries[0])
    else Find(entries[1..], key)
  }

  function Take(entries: seq<Entry>, n: nat): seq<Entry> {
    if |entries| <= n then entries else entries[..n]
  }

  // A hit moves the entry to the front.
  function Touched(entries: seq<Entry>, key: Key): seq<Entry> {
    match Find(entries, key)
    case None => entries
    case Some(e) => [e] + Without(entries, key)
  }

  // A completed read replaces the entry of its key; the oldest are dropped.
  function Stored(entries: seq<Entry>, capacity: nat, e: Entry): seq<Entry> {
    if capacity == 0 then entries else Take([e] + Without(entries, e.key), capacity)
  }

  // ---- The list of nodes and its index -------------------------------------------------

  type Node = nat

  function Drop(order: seq<Node>, n: Node): (r: seq<Node>)
    ensures forall m :: m in r <==> m in order && m != n
  {
    if order == [] then [] else if order[0] == n then Drop(order[1..], n) else [order[0]] + Drop(order[1..], n)
  }

  ghost predicate Distinct(order: seq<Node>) {
    order == [] || (order[0] !in order[1..] && Distinct(order[1..]))
  }

  ghost predicate AllIn(order: seq<Node>, nodes: map<Node, Entry>) {
    forall n :: n in order ==> n in nodes
  }

  // The entries the list holds, front first.
  ghost function Entries(order: seq<Node>, nodes: map<Node, Entry>): (r: seq<Entry>)
    requires AllIn(order, nodes)
    ensures |r| == |order| && forall k :: 0 <= k < |r| ==> r[k] == nodes[order[k]]
  {
    if order == [] then [] else [nodes[order[0]]] + Entries(order[1..], nodes)
  }

  // The index maps exactly the keys of the list, each to its own node.
  ghost predicate Agrees(order: seq<Node>, nodes: map<Node, Entry>, index: map<Key, Node>) {
    && AllIn(order, nodes)
    && (forall k :: k in index ==> index[k] in order && nodes[index[k]].key == k)
    && (forall n :: n in order ==> nodes[n].key in index && index[nodes[n].key] == n)
  }

  lemma {:induction false} DropDistinct(order: seq<Node>, n: Node)
    requires Distinct(order)
    ensures Distinct(Drop(order, n)) && |Drop(order, n)| == |order| - if n in order then 1 else 0
  {
    if order != [] {
      DropDistinct(order[1..], n);
      if order[0] != n {
        var rest := Drop(order[1..], n);
        assert ([order[0]] + rest)[1..] == rest;
      }
    }
  }

  lemma {:induction false} LastDistinct(order: seq<Node>)
    requires Distinct(order) && order != []
    ensures Distinct(order[..|order| - 1]) && order[|order| - 1] !in order[..|order| - 1]
  {
    if |order| > 1 {
      LastDistinct(order[1..]);
      assert order[..|order| - 1][1..] == order[1..][..|order| - 2];
      assert order[..|order| - 1] == [order[0]] + order[1..][..|order| - 2];
    }
  }

  // Removing a key's node from the list removes its entry.
  lemma {:induction false} DropIsWithout(order: seq<Node>, nodes: map<Node, Entry>, index: map<Key, Node>, key: Key)
    requires AllIn(order, nodes) && key in index
    requires forall n :: n in order ==> (nodes[n].key == key <==> n == index[key])
    ensures AllIn(Drop(order, index[key]), nodes)
    ensures Entries(Drop(order, index[key]), nodes) == Without(Entries(order, nodes), key)
  {
    if order != [] {
      DropIsWithout(order[1..], nodes, index, key);
      assert Entries(order, nodes)[1..] == Entries(order[1..], nodes);
    }
  }

  lemma {:induction false} FindInList(order: seq<Node>, nodes: map<Node, Entry>, n: Node)
    requires AllIn(order, nodes) && n in order
    requires forall m :: m in order ==> (nodes[m].key == nodes[n].key <==> m == n)
    ensures Find(Entries(order, nodes), nodes[n].key) == Some(nodes[n])
  {
    if order[0] != n {
      FindInList(order[1..], nodes, n);
      assert Entries(order, nodes)[1..] == Entries(order[1..], nodes);
    }
  }

  lemma SameEntries(order: seq<Node>, nodes: map<Node, Entry>, nodes': map<Node, Entry>)
    requires AllIn(order, nodes) && forall n :: n in order ==> n in nodes' && nodes'[n] == nodes[n]
    ensures AllIn(order, nodes') && Entries(order, nodes') == Entries(order, nodes)
  {
  }

  lemma {:induction false} NothingFound(entries: seq<Entry>, key: Key)
    requires forall e :: e in entries ==> e.key != key
    ensures Find(entries, key) == None && Without(entries, key) == entries
  {
    if entries != [] {
      NothingFound(entries[1..], key);
    }
  }

  // Everything the cache keeps true of its list and index.
  ghost predicate Consistent(order: seq<Node>, nodes: map<Node, Entry>, index: map<Key, Node>) {
    Distinct(order) && Agrees(order, nodes, index)
  }

  lemma FrontConsistent(order: seq<Node>, nodes: map<Node, Entry>, index: map<Key, Node>, n: Node)
    requires Consistent(order, nodes, index) && n in nodes && n !in order && nodes[n].key !in index
    ensures Consistent([n] + order, nodes, index[nodes[n].key := n])
    ensures Entries([n] + order, nodes) == [nodes[n]] + Entries(order, nodes)
  {
    assert ([n] + order)[1..] == order;
  }

  lemma DropConsistent(order: seq<Node>, nodes: map<Node, Entry>, index: map<Key, Node>, key: Key)
    requires Consistent(order, nodes, index) && key in index
    ensures Consistent(Drop(order, index[key]), nodes, index - {key})
    ensures |Drop(order, index[key])| == |order| - 1 && index[key] !in Drop(order, index[key])
    ensures Entries(Drop(order, index[key]), nodes) == Without(Entries(order, nodes), key)
    ensures Find(Entries(order, nodes), key) == Some(nodes[index[key]])
  {
    DropDistinct(order, index[key]);
    DropIsWithout(order, nodes, index, key);
    FindInList(order, nodes, index[key]);
    DropAgrees(order, Drop(order, index[key]), nodes, index, key);
  }

  lemma DropAgrees(order: seq<Node>, rest: seq<Node>, nodes: map<Node, Entry>, index: map<Key, Node>, key: Key)
    requires Agrees(order, nodes, index) && key in index
    requires forall m :: m in rest <==> m in order && m != index[key]
    ensures Agrees(rest, nodes, index - {key})
  {
  }

  lemma SpliceConsistent(order: seq<Node>, nodes: map<Node, Entry>, index: map<Key, Node>, key: Key)
    requires Consistent(order, nodes, index) && key in index
    ensures var n := index[key];
            && n in order && n in nodes && Consistent([n] + Drop(order, n), nodes, index)
            && |Drop(order, n)| == |order| - 1
            && Entries([n] + Drop(order, n), nodes) == [nodes[n]] + Without(Entries(order, nodes), key)
            && Find(Entries(order, nodes), key) == Some(nodes[n])
  {
    hide Find, Without, Entries, Drop, Distinct;
    DropConsistent(order, nodes, index, key);
    FrontConsistent(Drop(order, index[key]), nodes, index - {key}, index[key]);
    assert (index - {key})[key := index[key]] == index;
  }

  lemma LastConsistent(order: seq<Node>, nodes: map<Node, Entry>, index: map<Key, Node>)
    requires Consistent(order, nodes, index) && order != []
    ensures var last := order[|order| - 1];
            last in nodes && Consistent(order[..|order| - 1], nodes, index - {nodes[last].key})
    ensures AllIn(order[..|order| - 1], nodes) && forall n :: n in order[..|order| - 1] ==> n in order
    ensures Entries(order[..|order| - 1], nodes) == Entries(order, nodes)[..|order| - 1]
  {
    hide Entries, Distinct;
    var rest, last := order[..|order| - 1], order[|order| - 1];
    LastDistinct(order);
    forall n | n in order && n != last ensures n in rest {
      var k :| 0 <= k < |order| && order[k] == n;
      assert rest[k] == n;
    }
  }

  lemma NotIndexed(order: seq<Node>, nodes: map<Node, Entry>, index: map<Key, Node>, key: Key)
    requires Consistent(order, nodes, index) && key !in index
    ensures Find(Entries(order, nodes), key) == None && Without(Entries(order, nodes), key) == Entries(order, nodes)
  {
    forall e | e in Entries(order, nodes) ensures e.key != key {
      var k :| 0 <= k < |order| && Entries(order, nodes)[k] == e;
      assert order[k] in order;
    }
    NothingFound(Entries(order, nodes), key);
  }

  class ChunkCache {
    const capacity: nat
    var order: seq<Node>
    var nodes: map<Node, Entry>
    var index: map<Key, Node>
    var nextNode: Node
    var hits: nat

    ghost predicate Valid()
      reads this
    {
      && Consistent(order, nodes, index) && |order| <= capacity
      && forall n :: n in order ==> n < nextNode
    }

    ghost function Recent(): seq<Entry>
      requires Valid()
      reads this
    {
      Entries(order, nodes)
    }

    constructor (capacity: nat)
      ensures Valid() && Recent() == [] && hits == 0 && this.capacity == capacity
    {
      this.capacity := capacity;
      order, nodes, index, nextNode, hits := [], map[], map[], 0, 0;
    }

    /** The cache part of starting a read: a hit moves its node to the front. */
    method LookUp(key: Key) returns (found: Option<seq<Byte>>)
      requires Valid()
      modifies `order, `hits
      ensures Valid() && Recent() == Touched(old(Recent()), key)
      ensures found == match Find(old(Recent()), key) { case None => None case Some(e) => Some(e.bytes) }
      ensures hits == old(hits) + if found.Some? then 1 else 0
    {
      hide Find, Without, Entries, Drop, Distinct;
      if key !in index {
        NotIndexed(order, nodes, index, key);
        return None;
      }
      hits := hits + 1;
      var n := index[key];
      SpliceConsistent(order, nodes, index, key);
      order := [n] + Drop(order, n);
      return Some(nodes[order[0]].bytes);
    }

    /** The cache part of completing a read: an entry of the same key is replaced,
        and the least recent entries make room. */
    method Store(key: Key, bytes: seq<Byte>)
      requires Valid()
      modifies `order, `nodes, `index, `nextNode
      ensures Valid() && Recent() == Stored(old(Recent()), capacity, Entry(key, bytes))
    {
      hide Find, Without, Entries, Drop, Distinct;
      if capacity > 0 {
        ghost var before := Recent();
        Forget(key);
        Prepend(Entry(key, bytes));
        assert Entries(order, nodes) == [Entry(key, bytes)] + Without(before, key);
        Evict();
      }
    }

    // Drops the back of the list until it fits.
    method Evict()
      requires Consistent(order, nodes, index) && AllIn(order, nodes) && forall n :: n in order ==> n < nextNode
      modifies `order, `index
      ensures Valid() && Recent() == Take(old(Entries(order, nodes)), capacity)
    {
      hide Entries, Distinct, Agrees;
      ghost var full := Entries(order, nodes);
      assert full[..|order|] == full;
      while |order| > capacity
        invariant Consistent(order, nodes, index)
        invariant nextNode == old(nextNode) && forall m :: m in order ==> m < nextNode
        invariant AllIn(order, nodes)
        invariant |full| >= |order| >= Min(|full|, capacity) && Entries(order, nodes) == full[..|order|]
      {
        LastConsistent(order, nodes, index);
        assert full[..|order|][..|order| - 1] == full[..|order| - 1];
        ghost var longer := order;
        index := index - {nodes[order[|order| - 1]].key};
        order := order[..|order| - 1];
        assert forall m :: m in order ==> m in longer;
      }
    }

    // The erase branch: the entry of this key, if there is one, goes.
    method Forget(key: Key)
      requires Valid()
      modifies `order, `index
      ensures Valid() && Recent() == Without(old(Recent()), key) && key !in index
    {
      hide Find, Without, Entries, Drop, Distinct;
      if key in index {
        DropConsistent(order, nodes, index, key);
        order, index := Drop(order, index[key]), index - {key};
      } else {
        NotIndexed(order, nodes, index, key);
      }
    }

    // A new node in front; the list may be one too long for a moment.
    method Prepend(e: Entry)
      requires Valid() && e.key !in index
      modifies `order, `nodes, `index, `nextNode
      ensures Consistent(order, nodes, index) && forall n :: n in order ==> n < nextNode
      ensures Entries(order, nodes) == [e] + old(Recent())
    {
      hide Entries, Distinct;
      var n := nextNode;
      SameEntries(order, nodes, nodes[n := e]);
      nodes, nextNode := nodes[n := e], n + 1;
      FrontConsistent(order, nodes, index, n);
      order, index := [n] + order, index[e.key := n];
    }

    method Clear()
      requires Valid()
      modifies `order, `index
      ensures Valid() && Recent() == []
    {
      index := map[];
      order := [];
    }
  }

  function Min(a: nat, b: nat): nat {
    if a < b then a else b
  }

  // ---- Reads through the cache -----------------------------------------------------------

  datatype ReadError = EscapesRoot | CannotOpen | OffsetPastEnd | RangePastEnd

  datatype Result = Bytes(bytes: seq<Byte>) | Failed(error: ReadError)

  // The files below the root, and the relative paths that lead out of it.
  datatype Files = Files(contents: map<seq<string>, seq<Byte>>, escaping: set<seq<string>>)

  // What the worker answers when it reads the file.
  function Uncached(files: Files, key: Key): Result {
    if key.path in files.escaping then Failed(EscapesRoot)
    else if key.path !in files.contents then Failed(CannotOpen)
    else
      var data := files.contents[key.path];
      if key.offset > |data| then Failed(OffsetPastEnd)
      else if key.size > |data| - key.offset then Failed(RangePastEnd)
      else Bytes(data[key.offset..key.offset + key.size])
  }

  /** A read gives exactly the bytes of the file from the offset on, as many as asked
      for, and only when all of them are there; the first failing check names the error. */
  lemma ReadExact(files: Files, path: seq<string>, offset: nat, size: nat, bytes: seq<Byte>)
    ensures var r := Uncached(files, Key(path, offset, size));
            && (r == Bytes(bytes) <==>
                  && path !in files.escaping && path in files.contents && offset + size <= |files.contents[path]|
                  && |bytes| == size && forall i: nat :: i < size ==> bytes[i] == files.contents[path][offset + i])
            && (r == Failed(EscapesRoot) <==> path in files.escaping)
            && (r == Failed(CannotOpen) <==> path !in files.escaping && path !in files.contents)
            && (r == Failed(OffsetPastEnd) <==>
                  path !in files.escaping && path in files.contents && offset > |files.contents[path]|)
            && (r == Failed(RangePastEnd) <==>
                  path !in files.escaping && path in files.contents &&
                  offset <= |files.contents[path]| < offset + size)
  {
    if path !in files.escaping && path in files.contents && offset + size <= |files.contents[path]| {
      var data := files.contents[path];
      assert |bytes| == size && (forall i: nat :: i < size ==> bytes[i] == data[offset + i]) ==>
               bytes == data[offset..offset + size];
    }
  }

  // The critical sections, in the order in which the threads get the lock.
  datatype Event = LookUp(key: Key) | Complete(key: Key) | Clear

  function Apply(files: Files, capacity: nat, cache: seq<Entry>, e: Event): seq<Entry> {
    match e
    case LookUp(key) => Touched(cache, key)
    case Complete(key) =>
      (match Uncached(files, key)
       case Bytes(bytes) => Stored(cache, capacity, Entry(key, bytes))
       case Failed(_) => cache)
    case Clear => []
  }

  function After(files: Files, capacity: nat, events: seq<Event>): seq<Entry> {
    if events == [] then []
    else Apply(files, capacity, After(files, capacity, events[..|events| - 1]), events[|events| - 1])
  }

  /** With unchanging files a cached chunk is what reading the file would give,
      whatever lookups, racing completions and clears came before. */
  lemma {:induction false} HitsAreUncached(files: Files, capacity: nat, events: seq<Event>, key: Key)
    ensures var cache := After(files, capacity, events);
            && (forall e :: e in cache ==> Uncached(files, e.key) == Bytes(e.bytes))
            && (Find(cache, key).Some? ==> Uncached(files, key) == Bytes(Find(cache, key).value.bytes))
  {
    hide Uncached;
    if events != [] {
      HitsAreUncached(files, capacity, events[..|events| - 1], key);
    }
  }

  /** So a hit answers with bytes of the file, from the asked offset on. */
  lemma HitsAreFileBytes(files: Files, capacity: nat, events: seq<Event>, path: seq<string>, offset: nat, size: nat)
    requires Find(After(files, capacity, events), Key(path, offset, size)).Some?
    ensures var bytes := Find(After(files, capacity, events), Key(path, offset, size)).value.bytes;
            && path in files.contents && |bytes| == size && offset + size <= |files.contents[path]|
            && forall i: nat :: i < size ==> bytes[i] == files.contents[path][offset + i]
  {
    hide Uncached, After, Find;
    var key := Key(path, offset, size);
    HitsAreUncached(files, capacity, events, key);
    ReadExact(files, path, offset, size, Find(After(files, capacity, events), key).value.bytes);
  }

  // ---- Which chunks are cached -----------------------------------------------------------

  function Keys(entries: seq<Entry>): (r: seq<Key>)
    ensures |r| == |entries|
  {
    if entries == [] then [] else [entries[0].key] + Keys(entries[1..])
  }

  function Removed(keys: seq<Key>, k: Key): (r: seq<Key>)
    ensures forall x :: x in r <==> x in keys && x != k
  {
    if keys == [] then [] else if keys[0] == k then Removed(keys[1..], k) else [keys[0]] + Removed(keys[1..], k)
  }

  function First(keys: seq<Key>, n: nat): seq<Key> {
    if |keys| <= n then keys else keys[..n]
  }

  // The distinct keys of a history, last touched first.
  function Recency(touches: seq<Key>): seq<Key> {
    if touches == [] then []
    else [touches[|touches| - 1]] + Removed(Recency(touches[..|touches| - 1]), touches[|touches| - 1])
  }

  // The keys touched since the last clear: hits and successful completions.
  function Touches(files: Files, capacity: nat, events: seq<Event>): seq<Key> {
    if events == [] then []
    else
      var before, e := events[..|events| - 1], events[|events| - 1];
      var touches := Touches(files, capacity, before);
      match e
      case LookUp(key) => if Find(After(files, capacity, before), key).Some? then touches + [key] else touches
      case Complete(key) => if Uncached(files, key).Bytes? then touches + [key] else touches
      case Clear => []
  }

  // The keys touched after the last touch of k.
  function Since(touches: seq<Key>, k: Key): set<Key> {
    if touches == [] || touches[|touches| - 1] == k then {}
    else Since(touches[..|touches| - 1], k) + {touches[|touches| - 1]}
  }

  ghost predicate Unique(keys: seq<Key>) {
    keys == [] || (keys[0] !in keys[1..] && Unique(keys[1..]))
  }

  lemma {:induction false} RemovedUnique(keys: seq<Key>, k: Key)
    requires Unique(keys)
    ensures Unique(Removed(keys, k)) && |Removed(keys, k)| == |keys| - if k in keys then 1 else 0
    ensures k !in keys ==> Removed(keys, k) == keys
  {
    if keys != [] {
      RemovedUnique(keys[1..], k);
      RemovedHead(keys[0], keys[1..], k);
      assert [keys[0]] + keys[1..] == keys;
      if keys[0] != k {
        assert ([keys[0]] + Removed(keys[1..], k))[1..] == Removed(keys[1..], k);
      }
    }
  }

  lemma {:induction false} RemovedAppend(a: seq<Key>, b: seq<Key>, k: Key)
    ensures Removed(a + b, k) == Removed(a, k) + Removed(b, k)
  {
    if a == [] {
      assert a + b == b;
    } else {
      hide Removed;
      var h, t := a[0], a[1..];
      assert a == [h] + t;
      RemovedAppend(t, b, k);
      RemovedHead(h, t, k);
      RemovedHead(h, t + b, k);
      Reassociate(h, t, b);
      Reassociate(h, Removed(t, k), Removed(b, k));
    }
  }

  lemma Reassociate(head: Key, x: seq<Key>, y: seq<Key>)
    ensures [head] + (x + y) == ([head] + x) + y
  {
  }

  lemma RemovedHead(head: Key, tail: seq<Key>, k: Key)
    ensures Removed([head] + tail, k) == if head == k then Removed(tail, k) else [head] + Removed(tail, k)
  {
    assert ([head] + tail)[1..] == tail;
  }

  lemma {:induction false} UniqueParts(a: seq<Key>, b: seq<Key>)
    requires Unique(a + b)
    ensures Unique(a) && Unique(b) && forall k :: k in a ==> k !in b
  {
    if a == [] {
      assert a + b == b;
    } else {
      assert (a + b)[1..] == a[1..] + b;
      UniqueParts(a[1..], b);
    }
  }

  lemma FirstOfLong(x: seq<Key>, y: seq<Key>, n: nat)
    requires |x| >= n
    ensures First(x + y, n) == First(x, n)
  {
  }

  // Moving a key to the front commutes with cutting off the tail.
  lemma CutThenMove(r: seq<Key>, cap: nat, k: Key)
    requires Unique(r) && cap >= 1
    ensures First([k] + Removed(First(r, cap), k), cap) == First([k] + Removed(r, k), cap)
  {
    hide Unique, Removed;
    if |r| > cap {
      var a, b := r[..cap], r[cap..];
      assert a + b == r;
      UniqueParts(a, b);
      RemovedAppend(a, b, k);
      RemovedUnique(a, k);
      FirstOfLong([k] + Removed(a, k), Removed(b, k), cap);
      assert [k] + Removed(r, k) == ([k] + Removed(a, k)) + Removed(b, k);
    }
  }

  lemma {:induction false} KeysWithout(entries: seq<Entry>, k: Key)
    ensures Keys(Without(entries, k)) == Removed(Keys(entries), k)
    ensures Find(entries, k).Some? <==> k in Keys(entries)
  {
    if entries != [] {
      KeysWithout(entries[1..], k);
    }
  }

  lemma {:induction false} KeysTake(entries: seq<Entry>, n: nat)
    ensures Keys(Take(entries, n)) == First(Keys(entries), n)
  {
    if |entries| > n > 0 {
      KeysTake(entries[1..], n - 1);
      assert entries[..n][1..] == entries[1..][..n - 1];
      assert Take(entries[1..], n - 1) == entries[1..][..n - 1];
    }
  }

  lemma {:induction false} RecencyUnique(touches: seq<Key>)
    ensures Unique(Recency(touches)) && forall k :: k in Recency(touches) <==> k in touches
  {
    if touches != [] {
      var before, k := touches[..|touches| - 1], touches[|touches| - 1];
      RecencyUnique(before);
      RemovedUnique(Recency(before), k);
      assert ([k] + Removed(Recency(before), k))[1..] == Removed(Recency(before), k);
      assert touches == before + [k];
    }
  }

  /** The cache holds the most recently touched keys, in order of last touch:
      the recency order of the whole history cut at the capacity. */
  lemma {:induction false} CacheIsRecency(files: Files, capacity: nat, events: seq<Event>)
    requires capacity > 0
    ensures Keys(After(files, capacity, events)) == First(Recency(Touches(files, capacity, events)), capacity)
  {
    if events != [] {
      var before, e := events[..|events| - 1], events[|events| - 1];
      CacheIsRecency(files, capacity, before);
      var cache, touches := After(files, capacity, before), Touches(files, capacity, before);
      if e.LookUp? && Find(cache, e.key).Some? {
        MoveToFront(cache, touches, capacity, e.key, Find(cache, e.key).value);
        HitKeepsSize(cache, touches, capacity, e.key);
      } else if e.Complete? && Uncached(files, e.key).Bytes? {
        MoveToFront(cache, touches, capacity, e.key, Entry(e.key, Uncached(files, e.key).bytes));
      }
    }
  }

  lemma MoveToFront(cache: seq<Entry>, touches: seq<Key>, capacity: nat, key: Key, e: Entry)
    requires capacity > 0 && Keys(cache) == First(Recency(touches), capacity) && e.key == key
    ensures Keys(Take([e] + Without(cache, key), capacity)) == First(Recency(touches + [key]), capacity)
  {
    RecencyUnique(touches);
    CutThenMove(Recency(touches), capacity, key);
    KeysWithout(cache, key);
    KeysTake([e] + Without(cache, key), capacity);
    assert ([e] + Without(cache, key))[1..] == Without(cache, key);
    assert (touches + [key])[..|touches|] == touches;
  }

  // A hit loses nothing: one entry leaves its place for the front.
  lemma HitKeepsSize(cache: seq<Entry>, touches: seq<Key>, capacity: nat, key: Key)
    requires capacity > 0 && Keys(cache) == First(Recency(touches), capacity) && Find(cache, key).Some?
    ensures |Touched(cache, key)| <= capacity
  {
    RecencyUnique(touches);
    var r := Recency(touches);
    assert r == First(r, capacity) + (if |r| <= capacity then [] else r[capacity..]);
    UniqueParts(First(r, capacity), if |r| <= capacity then [] else r[capacity..]);
    KeysWithout(cache, key);
    RemovedUnique(Keys(cache), key);
  }

  function SetOf(keys: seq<Key>): set<Key> {
    set k | k in keys
  }

  lemma {:induction false} UniqueSize(keys: seq<Key>)
    requires Unique(keys)
    ensures |SetOf(keys)| == |keys|
  {
    if keys != [] {
      UniqueSize(keys[1..]);
      assert SetOf(keys) == SetOf(keys[1..]) + {keys[0]};
    }
  }

  // A key stands in the recency order behind exactly the keys touched since.
  lemma {:induction false} RecencyPlace(touches: seq<Key>, k: Key)
    requires k in touches
    ensures exists i :: 0 <= i < |Recency(touches)| && Recency(touches)[i] == k && SetOf(Recency(touches)[..i]) == Since(touches, k)
  {
    var before, last := touches[..|touches| - 1], touches[|touches| - 1];
    if last == k {
      assert Recency(touches)[0] == k && SetOf(Recency(touches)[..0]) == {};
    } else {
      assert touches == before + [last];
      RecencyPlace(before, k);
      var r := Recency(before);
      var i :| 0 <= i < |r| && r[i] == k && SetOf(r[..i]) == Since(before, k);
      RemovedPlace(r, last, i);
      var j := |Removed(r[..i], last)| + 1;
      assert Recency(touches)[j] == k;
      assert Recency(touches)[..j] == [last] + Removed(r[..i], last);
      forall x ensures x in SetOf(Recency(touches)[..j]) <==> x in Since(touches, k) {
        assert x in r[..i] <==> x in SetOf(r[..i]);
      }
      assert SetOf(Recency(touches)[..j]) == Since(touches, k);
    }
  }

  lemma RemovedPlace(r: seq<Key>, last: Key, i: nat)
    requires i < |r| && r[i] != last
    ensures var j := |Removed(r[..i], last)|;
            j < |Removed(r, last)| && Removed(r, last)[j] == r[i] && Removed(r, last)[..j] == Removed(r[..i], last)
  {
    assert r == r[..i] + r[i..];
    RemovedAppend(r[..i], r[i..], last);
  }

  /** Exactly when a chunk is cached: when it has been touched since the last
      clear and fewer distinct chunks than the capacity were touched after that.
      So what is evicted is always the least recently used. */
  lemma CachedIff(files: Files, capacity: nat, events: seq<Event>, key: Key)
    ensures var touches := Touches(files, capacity, events);
            Find(After(files, capacity, events), key).Some? <==>
            key in touches && |Since(touches, key)| < capacity
    ensures |After(files, capacity, events)| <= capacity
  {
    hide After, Touches, Recency, Since, Find, Unique, Keys;
    var cache, touches := After(files, capacity, events), Touches(files, capacity, events);
    if capacity == 0 {
      NothingCached(files, events);
    } else {
      CacheIsRecency(files, capacity, events);
      KeysWithout(cache, key);
      RecencyUnique(touches);
      if key in touches {
        RecencyPlace(touches, key);
        var r := Recency(touches);
        var i :| 0 <= i < |r| && r[i] == key && SetOf(r[..i]) == Since(touches, key);
        assert r == r[..i] + r[i..];
        UniqueParts(r[..i], r[i..]);
        UniqueSize(r[..i]);
        FirstHas(r, i, capacity);
      }
    }
  }

  lemma FirstHas(r: seq<Key>, i: nat, n: nat)
    requires Unique(r) && i < |r|
    ensures r[i] in First(r, n) <==> i < n
  {
    if n < |r| {
      assert r == r[..n] + r[n..];
      UniqueParts(r[..n], r[n..]);
      if i < n { assert r[..n][i] == r[i]; } else { assert r[n..][i - n] == r[i]; }
    }
  }

  lemma {:induction false} NothingCached(files: Files, events: seq<Event>)
    ensures After(files, 0, events) == []
  {
    if events != [] {
      NothingCached(files, events[..|events| - 1]);
    }
  }
}
