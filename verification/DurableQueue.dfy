/** The queue as the Scout runs it: a directory of files, a latest stamp, and the listing they denote. */
module DurableQueue {
  import opened Wrappers
  import opened Ordering
  import opened ResultQueue

  /** What a file holds: a whole encoded item, or bytes that do not decode. */
  datatype Blob = Whole(item: Item) | Torn

  type Directory = map<string, Blob>

  function FileOf(key: string): string { key + ".json" }

  function TmpOf(key: string): string { FileOf(key) + ".tmp" }

  predicate IsEntry(name: string) { |name| >= 5 && name[|name| - 5..] == ".json" }

  lemma FileNames(key: string, other: string)
    ensures IsEntry(FileOf(key)) && !IsEntry(TmpOf(key))
    ensures FileOf(key) == FileOf(other) <==> key == other
  {
    var f, g := FileOf(key), FileOf(other);
    assert f[|f| - 5..] == ".json";
    var t := TmpOf(key);
    assert t[|t| - 5] == 'n';
    assert f[..|f| - 5] == key && g[..|g| - 5] == other;
  }

  ghost predicate WellNamed(dir: Directory) {
    forall n :: n in dir && IsEntry(n) && dir[n].Whole? ==> n == FileOf(dir[n].item.key) && Int64(dir[n].item.createdAt)
  }

  /** `items` is the directory's content in delivery order; temporary files do not count. */
  ghost predicate Lists(dir: Directory, items: seq<Item>) {
    && StrictlySorted(ItemLess, items)
    && (forall x :: x in items ==> FileOf(x.key) in dir && dir[FileOf(x.key)] == Whole(x))
    && (forall n :: n in dir && IsEntry(n) ==> exists x :: x in items && FileOf(x.key) == n)
  }

  lemma ListingUnique(dir: Directory, s: seq<Item>, t: seq<Item>)
    requires Lists(dir, s) && Lists(dir, t)
    ensures s == t
  {
    ListedIn(dir, s, t);
    ListedIn(dir, t, s);
    ItemLessIsStrictOrder();
    SortedUnique(ItemLess, s, t);
  }

  lemma ListedIn(dir: Directory, s: seq<Item>, t: seq<Item>)
    requires Lists(dir, s) && Lists(dir, t)
    ensures forall x :: x in s ==> x in t
  {
    forall x | x in s ensures x in t {
      FileNames(x.key, x.key);
      var y :| y in t && FileOf(y.key) == FileOf(x.key);
    }
  }

  lemma ListingHasKey(dir: Directory, items: seq<Item>, key: string)
    requires Lists(dir, items)
    ensures HasKey(items, key) <==> FileOf(key) in dir
  {
    FileNames(key, key);
    if FileOf(key) in dir {
      var x :| x in items && FileOf(x.key) == FileOf(key);
      FileNames(key, x.key);
    }
  }

  lemma ListingConsistent(dir: Directory, items: seq<Item>)
    requires WellNamed(dir) && Lists(dir, items)
    ensures Consistent(QueueState(items, LatestStamp(items)))
  {
    forall x | x in items ensures Int64(x.createdAt) {
      FileNames(x.key, x.key);
    }
    forall i, j | 0 <= i < j < |items| ensures items[i].key != items[j].key {
      ItemLessIsStrictOrder();
      assert ItemLess(items[i], items[j]);
      assert dir[FileOf(items[i].key)] == Whole(items[i]) && dir[FileOf(items[j].key)] == Whole(items[j]);
    }
  }

  lemma ListingAfterStore(dir: Directory, q: QueueState, x: Item, last: int)
    requires Lists(dir, q.items) && Consistent(q)
    requires !HasKey(q.items, x.key)
    requires q.last <= last <= MAX_INT64 && MIN_INT64 <= x.createdAt <= last
    ensures Lists((dir - {TmpOf(x.key)})[FileOf(x.key) := Whole(x)], Insert(ItemLess, x, q.items))
  {
    InsertConsistent(q, x, last);
    InsertElements(x, q.items);
    forall y | y in q.items ensures FileOf(y.key) != FileOf(x.key) && FileOf(y.key) != TmpOf(x.key) {
      FileNames(x.key, y.key);
      FileNames(y.key, y.key);
    }
    FileNames(x.key, x.key);
    ListingReplaced(dir, q.items, FileOf(x.key), TmpOf(x.key), x, Insert(ItemLess, x, q.items));
  }

  lemma InsertElements(x: Item, s: seq<Item>)
    ensures forall y :: y in Insert(ItemLess, x, s) <==> y == x || y in s
  {
    var r := Insert(ItemLess, x, s);
    forall y ensures y in r <==> y == x || y in s {
      assert y in r <==> y in multiset(r);
    }
  }

  lemma ListingReplaced(dir: Directory, items: seq<Item>, file: string, tmp: string, x: Item, r: seq<Item>)
    requires Lists(dir, items)
    requires file == FileOf(x.key) && !IsEntry(tmp)
    requires forall y :: y in items ==> FileOf(y.key) != file && FileOf(y.key) != tmp
    requires StrictlySorted(ItemLess, r) && forall y :: y in r <==> y == x || y in items
    ensures Lists((dir - {tmp})[file := Whole(x)], r)
  {
    var dir' := (dir - {tmp})[file := Whole(x)];
    forall n | n in dir' && IsEntry(n) ensures exists y :: y in r && FileOf(y.key) == n {
      if n == file {
        assert x in r;
      } else {
        var y :| y in items && FileOf(y.key) == n;
        assert y in r;
      }
    }
  }

  lemma ListingIgnoresTemporary(dir: Directory, items: seq<Item>, tmp: string, blob: Blob)
    requires Lists(dir, items) && !IsEntry(tmp)
    ensures Lists(dir[tmp := blob], items)
  {
    forall x | x in items ensures FileOf(x.key) != tmp { FileNames(x.key, x.key); }
  }

  lemma ListingAfterRemove(dir: Directory, items: seq<Item>)
    requires Lists(dir, items) && items != []
    requires forall i, j :: 0 <= i < j < |items| ==> items[i].key != items[j].key
    ensures Lists(dir - {FileOf(items[0].key)}, items[1..])
  {
    var dir' := dir - {FileOf(items[0].key)};
    forall x | x in items[1..] ensures FileOf(x.key) in dir' {
      FileNames(items[0].key, x.key);
      var i :| 0 < i < |items| && items[i] == x;
    }
    forall n | n in dir' && IsEntry(n) ensures exists x :: x in items[1..] && FileOf(x.key) == n {
      var x :| x in items && FileOf(x.key) == n;
      assert x in items[1..];
    }
  }

  /** Where the disk, or a crash, can interrupt `Enqueue` after its checks. */
  datatype Fault = NoFault | WriteFault | RenameFault

  /** How one upload of a drain ends. */
  datatype Answer = Accepted | Refused | AcceptedButKept | Cancelled

  class Queue {
    const hash: string -> string
    const maxBytes: int
    var dir: Directory
    var lastCreatedAt: int
    ghost var items: seq<Item>

    ghost predicate Valid()
      reads this
    {
      Lists(dir, items) && Consistent(State())
    }

    ghost function State(): QueueState
      reads this
    {
      QueueState(items, lastCreatedAt)
    }

    constructor (hash: string -> string, dir: Directory, maxBytes: int)
      ensures this.hash == hash && this.dir == dir && this.maxBytes == maxBytes && lastCreatedAt == 0
    {
      this.hash, this.dir, this.maxBytes, this.lastCreatedAt := hash, dir, maxBytes, 0;
    }

    /** `Open`: refuses a directory with an undecodable item; otherwise resumes after the latest stamp. */
    static method Open(hash: string -> string, dir: Directory, maxBytes: int) returns (r: Result<Queue, string>)
      requires WellNamed(dir)
      ensures r.Failure? <==> exists n :: n in dir && IsEntry(n) && dir[n].Torn?
      ensures r.Success? ==> fresh(r.value) && r.value.Valid()
      ensures r.Success? ==> r.value.dir == dir && r.value.hash == hash && r.value.maxBytes == maxBytes
      ensures r.Success? ==> r.value.lastCreatedAt == LatestStamp(r.value.items)
    {
      var q := new Queue(hash, dir, maxBytes);
      var listed := q.PendingLocked();
      if listed.Failure? { return Failure(listed.error); }
      ListingConsistent(dir, listed.value);
      q.lastCreatedAt := Latest(listed.value);
      q.items := listed.value;
      return Success(q);
    }

    static method Latest(pending: seq<Item>) returns (last: int)
      ensures last == LatestStamp(pending)
    {
      last := 0;
      for i := 0 to |pending|
        invariant last >= 0
        invariant forall x :: x in pending[..i] ==> x.createdAt <= last
        invariant last == 0 || exists x :: x in pending[..i] && x.createdAt == last
      {
        assert pending[..i + 1] == pending[..i] + [pending[i]];
        if pending[i].createdAt > last { last := pending[i].createdAt; }
      }
      assert pending[..|pending|] == pending;
    }

    /** `pendingLocked`: reads every entry file, fails on one that does not decode, sorts the rest. */
    method PendingLocked() returns (r: Result<seq<Item>, string>)
      requires WellNamed(dir)
      ensures r.Failure? <==> exists n :: n in dir && IsEntry(n) && dir[n].Torn?
      ensures r.Success? ==> Lists(dir, r.value)
    {
      var names := set n | n in dir && IsEntry(n);
      var found: seq<Item> := [];
      while names != {}
        invariant forall n :: n in names ==> n in dir && IsEntry(n)
        invariant forall n :: n in dir && IsEntry(n) && n !in names ==> dir[n].Whole? && dir[n].item in found
        invariant forall x :: x in found ==>
          FileOf(x.key) in dir && dir[FileOf(x.key)] == Whole(x) && FileOf(x.key) !in names
        invariant forall i, j :: 0 <= i < j < |found| ==> found[i].key != found[j].key
        decreases names
      {
        var name :| name in names;
        if dir[name].Torn? { return Failure("queue: decode " + name); }
        var x := dir[name].item;
        assert name == FileOf(x.key);
        forall y | y in found ensures y.key != x.key { assert FileOf(y.key) !in names; }
        found := found + [x];
        names := names - {name};
      }
      var sorted := Sort(ItemLess, found);
      SortedFiles(dir, found);
      return Success(sorted);
    }

    /** `Pending` is the abstract content. */
    method Pending() returns (r: Result<seq<Item>, string>)
      requires Valid()
      ensures r == Success(items)
    {
      ValidDirectory();
      r := PendingLocked();
      assert r.Success?;
      ListingUnique(dir, items, r.value);
    }

    lemma ValidDirectory()
      requires Valid()
      ensures WellNamed(dir)
      ensures forall n :: n in dir && IsEntry(n) ==> dir[n].Whole?
    {
      forall n | n in dir && IsEntry(n)
        ensures dir[n].Whole? && n == FileOf(dir[n].item.key) && Int64(dir[n].item.createdAt)
      {
        var x :| x in items && FileOf(x.key) == n;
      }
    }

    method Backlog() returns (count: nat, bytes: nat)
      requires Valid()
      ensures count == |items| && bytes == Bytes(items)
    {
      var listed := Pending();
      var pending := listed.value;
      count, bytes := |pending|, 0;
      for i := 0 to |pending|
        invariant bytes + Bytes(pending[i..]) == Bytes(pending)
      {
        assert pending[i..][0] == pending[i] && pending[i..][1..] == pending[i + 1..];
        bytes := bytes + |pending[i].raw|;
      }
    }

    /** `Enqueue`: what a fault interrupts leaves the listing as it was. */
    method Enqueue(offered: Item, now: int, fault: Fault) returns (outcome: Outcome)
      requires Valid() && Int64(now) && Int64(offered.createdAt)
      modifies this
      ensures Valid()
      ensures var (q, o) := Enqueued(hash, maxBytes, old(State()), offered, now);
        if o.Stored? && !fault.NoFault?
        then outcome == DiskError && State() == EnqueueFailed(hash, old(State()), offered, now)
        else outcome == o && State() == q
    {
      var it := offered;
      if it.key == "" { it := it.(key := ItemKey(hash, it)); }
      ListingHasKey(dir, items, it.key);
      if FileOf(it.key) in dir { return AlreadyQueued; }
      it := TakeStamp(it, now);
      if maxBytes > 0 {
        var _, pending := Backlog();
        if pending + |it.raw| > maxBytes { return Full; }
      }
      if !fault.NoFault? {
        WriteTemporary(it, fault);
        return DiskError;
      }
      Write(it);
      return Stored;
    }

    /** Gives the item its stamp and remembers the latest. */
    method TakeStamp(it: Item, now: int) returns (r: Item)
      requires Valid() && Int64(now) && Int64(it.createdAt)
      modifies `lastCreatedAt
      ensures Valid()
      ensures r == it.(createdAt := Stamp(it, now, old(lastCreatedAt)))
      ensures lastCreatedAt == if r.createdAt > old(lastCreatedAt) then r.createdAt else old(lastCreatedAt)
      ensures MIN_INT64 <= r.createdAt <= lastCreatedAt
    {
      StampRange(it, now, lastCreatedAt);
      r := it;
      if r.createdAt == 0 {
        r := r.(createdAt := now);
        if r.createdAt <= lastCreatedAt {
          r := r.(createdAt := Wrap64(lastCreatedAt + 1));
        }
      }
      if r.createdAt > lastCreatedAt { lastCreatedAt := r.createdAt; }
    }

    /** The temporary file an interrupted write leaves behind is not an entry. */
    method WriteTemporary(it: Item, fault: Fault)
      requires Valid()
      modifies `dir
      ensures Valid()
      ensures dir == old(dir)[TmpOf(it.key) := if fault.WriteFault? then Torn else Whole(it)]
    {
      dir := dir[TmpOf(it.key) := if fault.WriteFault? then Torn else Whole(it)];
      ListingIgnoresTemporary(old(dir), items, TmpOf(it.key), dir[TmpOf(it.key)]) by { FileNames(it.key, it.key); }
    }

    /** A complete write: the temporary file, then the rename over the entry. */
    method Write(it: Item)
      requires Valid() && !HasKey(items, it.key) && MIN_INT64 <= it.createdAt <= lastCreatedAt
      modifies `dir, `items
      ensures Valid()
      ensures items == Insert(ItemLess, it, old(items))
    {
      var tmp := TmpOf(it.key);
      var written := dir[tmp := Whole(it)];
      var renamed := (written - {tmp})[FileOf(it.key) := written[tmp]];
      assert renamed == (dir - {tmp})[FileOf(it.key) := Whole(it)];
      ghost var stored := Insert(ItemLess, it, items);
      ListingAfterStore(dir, State(), it, lastCreatedAt);
      InsertConsistent(State(), it, lastCreatedAt);
      dir := written;
      dir := renamed;
      items := stored;
    }

    /** `Drain`: oldest first, stopping at the first item that was not both uploaded and removed. */
    method Drain(answer: nat -> Answer) returns (uploaded: nat, sent: seq<Item>)
      requires Valid()
      modifies this
      ensures Valid()
      ensures uploaded <= |old(items)|
      ensures State() == QueueStep(hash, maxBytes, old(State()), Op.Drain(uploaded))
      ensures forall i :: 0 <= i < uploaded ==> answer(i).Accepted?
      ensures uploaded < |old(items)| ==> !answer(uploaded).Accepted?
      ensures sent == old(items)[..uploaded] + (
          if uploaded < |old(items)| && !answer(uploaded).Cancelled? then [old(items)[uploaded]] else [])
    {
      hide Queue.Valid, Bytes, StringLess;
      var listed := Pending();
      var pending := listed.value;
      uploaded := 0;
      while uploaded < |pending| && answer(uploaded).Accepted?
        invariant uploaded <= |pending|
        invariant Valid() && lastCreatedAt == old(lastCreatedAt)
        invariant items == pending[uploaded..]
        invariant forall i :: 0 <= i < uploaded ==> answer(i).Accepted?
      {
        RemoveOldest(pending[uploaded]);
        uploaded := uploaded + 1;
      }
      sent := pending[..uploaded];
      if uploaded < |pending| && !answer(uploaded).Cancelled? {
        sent := sent + [pending[uploaded]];
      }
    }

    method RemoveOldest(it: Item)
      requires Valid() && items != [] && it == items[0]
      modifies `dir, `items
      ensures Valid()
      ensures items == old(items)[1..]
    {
      ListingAfterRemove(dir, items);
      dir := dir - {FileOf(it.key)};
      items := items[1..];
    }

    /** A stop at any moment and a new start: the listing is untouched, the stamps resume behind it. */
    method Restart() returns (q: Queue)
      requires Valid()
      ensures fresh(q) && q.Valid() && q.hash == hash && q.maxBytes == maxBytes
      ensures q.State() == Reopened(State())
    {
      ValidDirectory();
      var r := Open(hash, dir, maxBytes);
      assert r.Success?;
      ListingUnique(dir, items, r.value.items);
      return r.value;
    }
  }

  lemma SortedFiles(dir: Directory, found: seq<Item>)
    requires forall x :: x in found ==> FileOf(x.key) in dir && dir[FileOf(x.key)] == Whole(x)
    requires forall n :: n in dir && IsEntry(n) ==>
      dir[n].Whole? && n == FileOf(dir[n].item.key) && dir[n].item in found
    requires forall i, j :: 0 <= i < j < |found| ==> found[i].key != found[j].key
    ensures Lists(dir, Sort(ItemLess, found))
  {
    ItemLessIsStrictOrder();
    forall x, y | x in found && y in found && x != y ensures ItemLess(x, y) || ItemLess(y, x) {
      var i :| 0 <= i < |found| && found[i] == x;
      var j :| 0 <= j < |found| && found[j] == y;
      ItemLessTotal(x, y);
    }
    SortSorts(ItemLess, found);
  }
}
