/** The plain data of `cocotb_wrapper/models.py`: the edge and unit
    enumerations, the trigger configuration, the field-wise merge of
    configuration objects (`Defaultable`) and the stable priority queue
    (`PriorityFifoQueue`). */
module Models {
  import opened Results

  /** A simulator signal handle; only its identity matters to the model. */
  type SignalId = nat

  /** The edge to synchronise to; `None` means "no synchronisation". */
  datatype EdgeType = NoEdge | Rising | Falling | AnyEdge

  /** Time units; `Cycle` and `Edge` are relative to a clock. */
  datatype Unit = Step | Fs | Ps | Ns | Us | Ms | Sec | Cycle | Edge

  /** The enumeration value Python assigns to each edge type. */
  function EdgeTypeValue(e: EdgeType): (v: nat)
    ensures v < 4
    ensures v == 0 <==> e == NoEdge
  {
    match e
    case NoEdge => 0
    case Rising => 1
    case Falling => 2
    case AnyEdge => 3
  }

  /** The enumeration value Python assigns to each unit. */
  function UnitValue(u: Unit): (v: nat)
    ensures v < 9
  {
    match u
    case Step => 0
    case Fs => 1
    case Ps => 2
    case Ns => 3
    case Us => 4
    case Ms => 5
    case Sec => 6
    case Cycle => 7
    case Edge => 8
  }

  /** `cycle` and `edge` need a clock to be interpreted; every other unit is a
      wall-clock unit. */
  predicate IsClockRelative(u: Unit) {
    u == Cycle || u == Edge
  }

  /** Distinct members carry distinct values, and exactly the two members with
      the highest values are clock relative. */
  lemma EnumValuesDistinct(a: Unit, b: Unit, e: EdgeType, f: EdgeType)
    ensures UnitValue(a) == UnitValue(b) ==> a == b
    ensures EdgeTypeValue(e) == EdgeTypeValue(f) ==> e == f
    ensures IsClockRelative(a) <==> UnitValue(a) >= 7
  {
  }

  /** One wait condition: an edge of a signal. */
  datatype TriggerConfig = TriggerConfig(signal: SignalId, edge: EdgeType)

  /** A configuration object whose attributes may be `None`; `fields` is the
      object's attribute dictionary (`None` for an unset attribute). */
  class Defaultable<V> {
    var fields: map<string, Option<V>>

    constructor (fields: map<string, Option<V>>)
      ensures this.fields == fields
    {
      this.fields := fields;
    }

    /** `default_to`: every attribute that is `None` takes `other`'s value;
        attributes that are set keep their value; a missing `other` changes
        nothing. The result is the object itself. */
    method DefaultTo(other: Defaultable?<V>) returns (r: Defaultable<V>)
      requires other != null ==> forall k :: k in fields && fields[k].None? ==> k in other.fields
      modifies this
      ensures r == this
      ensures other == null ==> fields == old(fields)
      ensures other != null ==> fields.Keys == old(fields).Keys
      ensures other != null ==> forall k :: k in fields ==>
        fields[k] == (if old(fields)[k].None? then old(other.fields)[k] else old(fields)[k])
    {
      r := this;
      if other == null {
        return;
      }
      var source := other.fields;
      var original := fields;
      var pending := fields.Keys;
      while pending != {}
        invariant pending <= original.Keys
        invariant forall k :: k in original && original[k].None? ==> k in source
        invariant fields.Keys == original.Keys
        invariant forall k :: k in fields && k !in pending ==>
          fields[k] == (if original[k].None? then source[k] else original[k])
        invariant forall k :: k in pending ==> fields[k] == original[k]
        decreases pending
      {
        var key :| key in pending;
        if fields[key].None? {
          fields := fields[key := source[key]];
        }
        pending := pending - {key};
      }
    }

    /** `set_from`: every attribute of `other` is copied onto this object
        (added when absent); a missing `other` changes nothing. */
    method SetFrom(other: Defaultable?<V>) returns (r: Defaultable<V>)
      modifies this
      ensures r == this
      ensures other == null ==> fields == old(fields)
      ensures other != null ==> fields == old(fields) + old(other.fields)
    {
      r := this;
      if other == null {
        return;
      }
      var source := other.fields;
      var original := fields;
      var pending := source.Keys;
      while pending != {}
        invariant pending <= source.Keys
        invariant fields.Keys == original.Keys + (source.Keys - pending)
        invariant forall k :: k in fields ==>
          fields[k] == (if k in source && k !in pending then source[k] else original[k])
        decreases pending
      {
        var key :| key in pending;
        fields := fields[key := source[key]];
        pending := pending - {key};
      }
      assert fields == original + source;
    }
  }

  /** An element of the priority queue: its priority, the insertion index that
      makes equal priorities first-in-first-out, and the item. */
  datatype Entry<T> = Entry(priority: int, index: nat, item: T)

  /** `a` is served before `b`: smaller priority first, then smaller index. */
  predicate Before<T>(a: Entry<T>, b: Entry<T>) {
    a.priority < b.priority || (a.priority == b.priority && a.index < b.index)
  }

  /** The priority `put` stores: the explicit one if given, else the item's. */
  function PriorityOf(priority: Option<int>, itemPriority: Option<int>): int
    requires priority.Some? || itemPriority.Some?
  {
    if priority.Some? then priority.value else itemPriority.value
  }

  /** `PriorityFifoQueue`: the heap is modelled by the sequence of its
      entries (order inside it is irrelevant); `nextIndex` is `_index`. */
  class PriorityFifoQueue<T> {
    var entries: seq<Entry<T>>
    var nextIndex: nat

    /** Every stored index is below the counter and no two are equal. */
    ghost predicate Valid()
      reads this
    {
      && (forall i :: 0 <= i < |entries| ==> entries[i].index < nextIndex)
      && (forall i, j :: 0 <= i < j < |entries| ==> entries[i].index != entries[j].index)
    }

    constructor ()
      ensures Valid() && entries == [] && nextIndex == 0
    {
      entries := [];
      nextIndex := 0;
    }

    /** `put`: an explicit priority wins, otherwise the item's own `priority`
        attribute (`itemPriority`) is used; with neither, `ValueError` is raised
        (`ok` false) and nothing is added. */
    method Put(item: T, priority: Option<int>, itemPriority: Option<int>) returns (ok: bool)
      requires Valid()
      modifies this
      ensures Valid()
      ensures ok == (priority.Some? || itemPriority.Some?)
      ensures !ok ==> entries == old(entries) && nextIndex == old(nextIndex)
      ensures ok ==> nextIndex == old(nextIndex) + 1
      ensures ok ==> entries == old(entries) + [Entry(PriorityOf(priority, itemPriority), old(nextIndex), item)]
    {
      if priority.None? && itemPriority.None? {
        return false;
      }
      entries := entries + [Entry(PriorityOf(priority, itemPriority), nextIndex, item)];
      nextIndex := nextIndex + 1;
      ok := true;
    }

    /** The position of the entry served first; reads the queue only. */
    method FirstPosition() returns (k: nat)
      requires |entries| > 0
      requires Valid()
      ensures k < |entries|
      ensures forall j :: 0 <= j < |entries| && j != k ==> Before(entries[k], entries[j])
    {
      k := 0;
      var i := 1;
      while i < |entries|
        invariant 1 <= i <= |entries|
        invariant k < i
        invariant forall j :: 0 <= j < i && j != k ==> Before(entries[k], entries[j])
      {
        if Before(entries[i], entries[k]) {
          k := i;
        }
        i := i + 1;
      }
    }

    /** `get`: removes and returns the entry with the smallest priority, the
        earliest inserted among equals; all other entries stay. `None` stands
        for the call that would block on an empty queue. */
    method Get() returns (r: Option<T>)
      requires Valid()
      modifies this
      ensures Valid()
      ensures nextIndex == old(nextIndex)
      ensures old(entries) == [] ==> r == None && entries == []
      ensures old(entries) != [] ==> (
        exists k :: 0 <= k < |old(entries)| && r == Some(old(entries)[k].item) &&
          entries == old(entries)[..k] + old(entries)[k + 1..] &&
          forall j :: 0 <= j < |old(entries)| && j != k ==> Before(old(entries)[k], old(entries)[j]))
    {
      if entries == [] {
        return None;
      }
      var k := FirstPosition();
      r := Some(entries[k].item);
      ghost var before := entries;
      entries := entries[..k] + entries[k + 1..];
      assert forall i :: 0 <= i < |entries| ==> entries[i] == (if i < k then before[i] else before[i + 1]);
    }

    /** `has_item_of_priority`: true iff some queued entry has priority `p`. */
    method HasItemOfPriority(p: int) returns (found: bool)
      ensures found <==> exists i :: 0 <= i < |entries| && entries[i].priority == p
    {
      var i := 0;
      while i < |entries|
        invariant 0 <= i <= |entries|
        invariant forall j :: 0 <= j < i ==> entries[j].priority != p
      {
        if entries[i].priority == p {
          return true;
        }
        i := i + 1;
      }
      return false;
    }
  }
}
