/** The reactive cells of src/main.ts: a mutable source cell (Row) that
    pushes "dirty" notifications to its listeners, a memoizing lowercase
    node (ToLowercase) that recomputes only when pulled with an empty cache,
    and a query that scans producers ("no index"). */
module Reactive {
  import opened Positions

  /** A value produced by a cell. */
  type Value = string

  predicate IsUpper(c: char)
  {
    'A' <= c <= 'Z'
  }

  /** ASCII lowering of one character. */
  function LowerChar(c: char): char
  {
    if IsUpper(c) then (c as int - 'A' as int + 'a' as int) as char else c
  }

  /** ASCII lowering of a string, one character at a time. */
  function Lower(s: Value): (r: Value)
    ensures |r| == |s|
    ensures forall i :: 0 <= i < |s| ==> r[i] == LowerChar(s[i])
    ensures forall i :: 0 <= i < |r| ==> !IsUpper(r[i])
  {
    if s == [] then [] else [LowerChar(s[0])] + Lower(s[1..])
  }

  /** Lowering twice is lowering once. */
  lemma LowerIdempotent(s: Value)
    ensures Lower(Lower(s)) == Lower(s)
  {
  }

  /** The cache of a ToLowercase node: `undefined` or a computed value. */
  datatype Cache = Empty | Cached(value: Value)

  /** A ValueProducer: either kind of cell, as seen by a holder of the
      interface (the index, or a ToLowercase node reading its input). */
  datatype Producer = Source(row: Row) | Transform(node: ToLowercase)

  /** The target of an equality query. */
  datatype Query = Query(equalTo: Value)

  /** Distance of a producer from the row at the bottom of its chain. */
  ghost function Depth(p: Producer): nat
  {
    match p
    case Source(_) => 0
    case Transform(t) => t.depth
  }

  /** The input chain below p ends at a row: each node sits strictly above
      its input. Every node built by the constructor satisfies this. */
  ghost predicate WellFormed(p: Producer)
    decreases Depth(p)
  {
    p.Transform? ==> Depth(p.node.input) < p.node.depth && WellFormed(p.node.input)
  }

  /** The ToLowercase nodes on the input chain of p, p's own node included. */
  ghost function Nodes(p: Producer): (ns: set<ToLowercase>)
    requires WellFormed(p)
    ensures forall t :: t in ns ==> t.depth <= Depth(p) && WellFormed(Transform(t))
    decreases Depth(p)
  {
    match p
    case Source(_) => {}
    case Transform(t) => {t} + Nodes(t.input)
  }

  /** The row at the bottom of p's input chain. */
  ghost function Root(p: Producer): Row
    requires WellFormed(p)
    decreases Depth(p)
  {
    match p
    case Source(r) => r
    case Transform(t) => Root(t.input)
  }

  /** The value getCurrent on p returns in the current state: a row's data,
      a filled cache's value, or the lowering of the input's value. */
  ghost function Current(p: Producer): Value
    requires WellFormed(p)
    reads Nodes(p), Root(p)
    decreases Depth(p)
  {
    match p
    case Source(r) => r.data
    case Transform(t) =>
      if t.cache.Cached? then t.cache.value else Lower(Current(t.input))
  }

  /** Between the old and the current state, every node of ns either kept its
      cache or had an empty cache filled with the value it would have
      returned. This is all that getCurrent does to the heap. */
  twostate predicate CachesOnlyFilled(ns: set<ToLowercase>)
    requires forall t :: t in ns ==> WellFormed(Transform(t))
    reads ns
  {
    forall t :: t in ns ==>
      t.cache == old(t.cache) ||
      (old(t.cache) == Empty && t.cache == Cached(old(Current(Transform(t)))))
  }

  /** Node t returns the same value in the current state as in the old. */
  twostate predicate CurrentKept(t: ToLowercase)
    requires WellFormed(Transform(t))
    reads Nodes(Transform(t)), Root(Transform(t))
  {
    Current(Transform(t)) == old(Current(Transform(t)))
  }

  /** No node of ns changed its cache between the old and the current state. */
  twostate predicate CachesKept(ns: set<ToLowercase>)
    reads ns
  {
    forall t :: t in ns ==> t.cache == old(t.cache)
  }

  /** No node of ns that had a filled cache in the old state has lost or
      changed it: only setDirty empties a cache. */
  twostate predicate FilledKept(ns: set<ToLowercase>)
    reads ns
  {
    forall t :: t in ns && old(t.cache).Cached? ==> t.cache == old(t.cache)
  }

  /** The rows that the nodes of ns read directly. */
  ghost function InputRows(ns: set<ToLowercase>): set<Row>
  {
    set t | t in ns && t.input.Source? :: t.input.row
  }

  /** Every node of ns that was wired in the old state is wired now. */
  twostate predicate WiredKept(ns: set<ToLowercase>)
    reads ns, InputRows(ns)
  {
    forall t :: t in ns && old(t.Wired()) ==> t.Wired()
  }

  /** Filling caches with the values they stood for changes no producer's
      current value. */
  twostate lemma {:induction false} CurrentPreserved(p: Producer)
    requires WellFormed(p)
    requires Root(p).data == old(Root(p).data)
    requires CachesOnlyFilled(Nodes(p))
    ensures Current(p) == old(Current(p))
    decreases Depth(p)
  {
    if p.Transform? {
      assert p.node in Nodes(p);
      CurrentPreserved(p.node.input);
    }
  }

  /** A mutable source cell with its listener list. */
  class Row {
    var data: Value
    var listeners: seq<ToLowercase>
    /** Every setDirty call this row has made, in the order made. */
    ghost var notified: seq<ToLowercase>

    constructor (data: Value)
      ensures this.data == data && listeners == [] && notified == []
    {
      this.data := data;
      listeners := [];
      notified := [];
    }

    /** Stores v, then marks every registered listener dirty, once per
        registration and in registration order. Every wired node stays
        wired, and a node wired to this row now reads Lower(v). */
    method Set(v: Value)
      modifies this, set l | l in listeners
      ensures data == v && listeners == old(listeners)
      ensures notified == old(notified) + listeners
      ensures forall l :: l in listeners ==> l.cache == Empty
      ensures forall t: ToLowercase :: old(allocated(t)) && old(t.Wired()) ==> t.Wired()
      ensures forall t: ToLowercase :: old(allocated(t)) && old(t.Wired()) && t.input.row == this ==>
                Current(Transform(t)) == Lower(v)
    {
      data := v;
      for i := 0 to |listeners|
        invariant data == v && listeners == old(listeners)
        invariant notified == old(notified) + listeners[..i]
        invariant forall j :: 0 <= j < i ==> listeners[j].cache == Empty
        invariant forall l :: l in listeners ==> l.cache == Empty || l.cache == old(l.cache)
      {
        listeners[i].SetDirty();
        notified := notified + [listeners[i]];
      }
    }

    /** The stored value; reading it changes nothing. */
    method GetCurrent() returns (v: Value)
      ensures v == data
    {
      v := data;
    }

    /** Appends l to the listener list, with no check for duplicates. */
    method AddListener(l: ToLowercase)
      modifies this
      ensures listeners == old(listeners) + [l]
      ensures data == old(data) && notified == old(notified)
    {
      listeners := listeners + [l];
    }
  }

  /** A memoizing node holding the lowercase of its input's value. */
  class ToLowercase {
    const input: Producer
    ghost const depth: nat
    var cache: Cache

    /** The row this node reads directly, if its input is a row. */
    ghost function InputRow(): set<Row>
    {
      if input.Source? then {input.row} else {}
    }

    /** The state makeToLowercase sets up over a row: registered as one of
        the row's listeners, with a cache that is empty or holds the
        lowercase of the row's current value (never stale). */
    ghost predicate Wired()
      reads this, InputRow()
    {
      && input.Source?
      && WellFormed(Transform(this))
      && this in input.row.listeners
      && (cache == Empty || cache == Cached(Lower(input.row.data)))
    }

    constructor (input: Producer)
      requires WellFormed(input)
      ensures this.input == input && cache == Empty
      ensures WellFormed(Transform(this))
    {
      this.input := input;
      depth := Depth(input) + 1;
      cache := Empty;
    }

    /** Empties the cache; on an empty cache this changes nothing. */
    method SetDirty()
      modifies this
      ensures cache == Empty
      ensures old(cache) == Empty ==> unchanged(this)
      ensures old(Wired()) ==> Wired()
    {
      cache := Empty;
    }

    /** With a filled cache, returns it and touches nothing. With an empty
        cache, pulls the input, stores its lowercase and returns that. */
    method GetCurrent() returns (v: Value)
      requires WellFormed(Transform(this))
      modifies Nodes(Transform(this))
      decreases depth, 1
      ensures v == old(Current(Transform(this)))
      ensures old(cache).Cached? ==> v == old(cache).value && CachesKept(Nodes(Transform(this)))
      ensures old(cache) == Empty ==> v == Lower(old(Current(input)))
      ensures cache == Cached(v) && Current(Transform(this)) == v
      ensures CachesOnlyFilled(Nodes(Transform(this)))
      ensures WiredKept(Nodes(Transform(this)))
    {
      if cache == Empty {
        var x := GetCurrentOf(input);
        cache := Cached(Lower(x));
      }
      v := cache.value;
    }

    /** Registration on a ToLowercase node is accepted and ignored. */
    method AddListener(l: ToLowercase)
      ensures unchanged(this) && unchanged(l)
    {
    }
  }

  /** getCurrent through the ValueProducer interface. */
  method GetCurrentOf(p: Producer) returns (v: Value)
    requires WellFormed(p)
    modifies Nodes(p)
    decreases Depth(p), 2
    ensures v == old(Current(p))
    ensures p.Transform? ==> p.node.cache == Cached(v)
    ensures CachesOnlyFilled(Nodes(p))
    ensures WiredKept(Nodes(p))
  {
    match p
    case Source(r) =>
      v := r.GetCurrent();
    case Transform(t) =>
      v := t.GetCurrent();
  }

  /** addListener through the ValueProducer interface. */
  method AddListenerTo(p: Producer, l: ToLowercase)
    modifies if p.Source? then {p.row} else {}
    ensures p.Source? ==>
              && p.row.listeners == old(p.row.listeners) + [l]
              && p.row.data == old(p.row.data)
              && p.row.notified == old(p.row.notified)
  {
    match p
    case Source(r) =>
      r.AddListener(l);
    case Transform(t) =>
      t.AddListener(l);
  }

  /** Builds a lowercase node over input and registers it as a listener of
      input; over a row, the new node is wired. */
  method MakeToLowercase(input: Producer) returns (t: ToLowercase)
    requires WellFormed(input)
    modifies if input.Source? then {input.row} else {}
    ensures fresh(t) && t.input == input && t.cache == Empty
    ensures WellFormed(Transform(t))
    ensures input.Source? ==>
              && t.Wired()
              && input.row.listeners == old(input.row.listeners) + [t]
              && input.row.data == old(input.row.data)
              && input.row.notified == old(input.row.notified)
  {
    t := new ToLowercase(input);
    AddListenerTo(input, t);
  }

  /** Every ToLowercase node on the chains of the given producers. */
  ghost function AllNodes(rows: seq<Producer>): (ns: set<ToLowercase>)
    requires forall i :: 0 <= i < |rows| ==> WellFormed(rows[i])
    ensures forall i :: 0 <= i < |rows| ==> Nodes(rows[i]) <= ns
    ensures forall t :: t in ns ==> WellFormed(Transform(t))
  {
    if rows == [] then {} else Nodes(rows[0]) + AllNodes(rows[1..])
  }

  /** Each node of AllNodes(rows) lies on the chain of one of the rows. */
  lemma {:induction false} InAllNodes(rows: seq<Producer>, t: ToLowercase) returns (j: nat)
    requires forall i :: 0 <= i < |rows| ==> WellFormed(rows[i])
    requires t in AllNodes(rows)
    ensures j < |rows| && t in Nodes(rows[j])
  {
    if t in Nodes(rows[0]) {
      j := 0;
    } else {
      j := InAllNodes(rows[1..], t);
      j := j + 1;
    }
  }

  /** A node on p's chain has its own chain inside p's, over the same row. */
  lemma {:induction false} NodesClosed(p: Producer, t: ToLowercase)
    requires WellFormed(p) && t in Nodes(p)
    ensures Nodes(Transform(t)) <= Nodes(p)
    ensures Root(Transform(t)) == Root(p)
    decreases Depth(p)
  {
    if t != p.node {
      NodesClosed(p.node.input, t);
    }
  }

  /** A fixed list of producers, scanned in full by every query. */
  class NoIndex {
    const rows: seq<Producer>

    constructor (rows: seq<Producer>)
      ensures this.rows == rows
    {
      this.rows := rows;
    }

    /** getCurrent on the producer at position i: the value it stood for,
        with every producer of the index keeping its current value. A node
        at position i holds its value in its cache afterwards, and no filled
        cache of the index is emptied. */
    method Pull(i: nat) returns (v: Value)
      requires i < |rows|
      requires forall j :: 0 <= j < |rows| ==> WellFormed(rows[j])
      modifies AllNodes(rows)
      ensures v == old(Current(rows[i]))
      ensures forall j :: 0 <= j < |rows| ==> Current(rows[j]) == old(Current(rows[j]))
      ensures rows[i].Transform? ==> rows[i].node.cache == Cached(v)
      ensures FilledKept(AllNodes(rows))
      ensures CachesOnlyFilled(AllNodes(rows))
      ensures forall t :: t in AllNodes(rows) ==> CurrentKept(t)
      ensures WiredKept(AllNodes(rows))
    {
      assert forall j :: 0 <= j < |rows| ==> allocated(Root(rows[j]));
      assert forall j :: 0 <= j < |rows| ==> allocated(Nodes(rows[j]));
      assert allocated(AllNodes(rows)) && allocated(InputRows(AllNodes(rows)));
      v := GetCurrentOf(rows[i]);
      forall t | t in AllNodes(rows) && t !in Nodes(rows[i])
        ensures old(t.Wired()) ==> t.Wired()
      {
        assert t.cache == old(t.cache);
        if t.input.Source? {
          assert t.input.row in InputRows(AllNodes(rows));
          assert unchanged(t.input.row);
        }
      }
      forall j | 0 <= j < |rows|
        ensures Current(rows[j]) == old(Current(rows[j]))
      {
        CurrentPreserved(rows[j]);
      }
      forall t | t in AllNodes(rows)
        ensures CurrentKept(t)
      {
        var j := InAllNodes(rows, t);
        NodesClosed(rows[j], t);
        CurrentPreserved(Transform(t));
      }
    }

    /** Pulls every producer in order and returns, ascending, the positions
        whose current value equals the target. Pulling may fill caches but
        changes no producer's current value; afterwards every node of the
        index caches its value, and no filled cache was emptied. */
    method RunQuery(q: Query) returns (result: seq<nat>)
      requires forall i :: 0 <= i < |rows| ==> WellFormed(rows[i])
      modifies AllNodes(rows)
      ensures forall k :: 0 <= k < |result| ==> result[k] < |rows|
      ensures StrictlyAscending(result)
      ensures forall i :: 0 <= i < |rows| ==>
                (i in result <==> old(Current(rows[i])) == q.equalTo)
      ensures forall i :: 0 <= i < |rows| ==> Current(rows[i]) == old(Current(rows[i]))
      ensures forall i :: 0 <= i < |rows| && rows[i].Transform? ==>
                rows[i].node.cache == Cached(old(Current(rows[i])))
      ensures FilledKept(AllNodes(rows))
      ensures CachesOnlyFilled(AllNodes(rows))
      ensures forall t :: t in AllNodes(rows) ==> CurrentKept(t)
      ensures WiredKept(AllNodes(rows))
    {
      result := [];
      for i := 0 to |rows|
        invariant forall k :: 0 <= k < |result| ==> result[k] < i
        invariant StrictlyAscending(result)
        invariant forall j :: 0 <= j < i ==>
                    (j in result <==> old(Current(rows[j])) == q.equalTo)
        invariant forall j :: 0 <= j < |rows| ==> Current(rows[j]) == old(Current(rows[j]))
        invariant forall j :: 0 <= j < i && rows[j].Transform? ==> rows[j].node.cache.Cached?
        invariant FilledKept(AllNodes(rows))
        invariant CachesOnlyFilled(AllNodes(rows))
        invariant forall t :: t in AllNodes(rows) ==> CurrentKept(t)
        invariant WiredKept(AllNodes(rows))
      {
        label Before:
        var v := Pull(i);
        forall t | t in AllNodes(rows)
          ensures CurrentKept(t)
          ensures t.cache == old(t.cache) ||
                  (old(t.cache) == Empty && t.cache == Cached(old(Current(Transform(t)))))
        {
          assert CurrentKept@Before(t);
        }
        if v == q.equalTo {
          result := result + [i];
        }
      }
    }
  }

  /** The object graph the program builds: a row under a wired lowercase
      node, a second row, and an index over the node and the second row. */
  ghost predicate ScenarioGraph(idx: NoIndex, r1: Row, tl: ToLowercase, r2: Row)
    reads r1, tl, r2
  {
    && idx.rows == [Transform(tl), Source(r2)]
    && tl.input == Source(r1)
    && tl.Wired()
    && r1.listeners == [tl]
    && r1 != r2
  }

  /** The program's setup: rows "Foo" and "BAr", a lowercase node made
      over the first, and an index over the node and the second row. */
  method BuildGraph() returns (idx: NoIndex, r1: Row, tl: ToLowercase, r2: Row)
    ensures fresh(idx) && fresh(r1) && fresh(tl) && fresh(r2)
    ensures ScenarioGraph(idx, r1, tl, r2)
    ensures r1.data == "Foo" && r2.data == "BAr"
    ensures r1.notified == [] && r2.notified == []
    ensures r2.listeners == [] && tl.cache == Empty
  {
    r1 := new Row("Foo");
    r2 := new Row("BAr");
    tl := MakeToLowercase(Source(r1));
    idx := new NoIndex([Transform(tl), Source(r2)]);
  }

  /** A query over the program's object graph: position 0 matches exactly
      when the lowercase of the first row's value is the target, position 1
      when the second row's value is. */
  method QueryGraph(idx: NoIndex, r1: Row, tl: ToLowercase, r2: Row, target: Value)
    returns (result: seq<nat>)
    requires ScenarioGraph(idx, r1, tl, r2)
    modifies tl
    ensures ScenarioGraph(idx, r1, tl, r2)
    ensures result == (if Lower(r1.data) == target then [0] else [])
                    + (if r2.data == target then [1] else [])
  {
    assert Nodes(Transform(tl)) == {tl} && Nodes(Source(r2)) == {};
    assert AllNodes([Source(r2)]) == {};
    assert AllNodes(idx.rows) == {tl};
    result := idx.RunQuery(Query(target));
    PositionsBelowTwo(result, Lower(r1.data) == target, r2.data == target);
  }

  /** One step of the program's inner loop: write v to the first row, then
      query. The write is seen: position 0 matches exactly when Lower(v) is
      the target. */
  method SetThenQuery(idx: NoIndex, r1: Row, tl: ToLowercase, r2: Row, v: Value, target: Value)
    returns (result: seq<nat>)
    requires ScenarioGraph(idx, r1, tl, r2)
    modifies r1, tl
    ensures ScenarioGraph(idx, r1, tl, r2) && r1.data == v && r2.data == old(r2.data)
    ensures result == (if Lower(v) == target then [0] else [])
                    + (if r2.data == target then [1] else [])
  {
    r1.Set(v);
    result := QueryGraph(idx, r1, tl, r2, target);
  }

  /** One pass of the program's own run: the setup, a query before any
      write, and two write-then-query steps. */
  method MainScenario() returns (before: seq<nat>, afterQuux: seq<nat>, afterBoo: seq<nat>)
    ensures before == []
    ensures afterQuux == [0]
    ensures afterBoo == [0]
  {
    var idx, r1, tl, r2 := BuildGraph();
    assert Lower("Foo") == "foo";
    before := QueryGraph(idx, r1, tl, r2, "quux");
    assert Lower("quuX") == "quux";
    afterQuux := SetThenQuery(idx, r1, tl, r2, "quuX", "quux");
    assert Lower("BOO") == "boo";
    afterBoo := SetThenQuery(idx, r1, tl, r2, "BOO", "boo");
  }

  /** A lowercase node over another lowercase node is never told that the
      row changed, because addListener on a ToLowercase is ignored: once its
      cache is filled it keeps returning the old value. */
  method TwoLevelChainStale() returns (first: Value, afterSet: Value, inner: Value)
    ensures first == "a" && afterSet == "a" && inner == "b"
  {
    var r := new Row("A");
    var t1 := MakeToLowercase(Source(r));
    var t2 := MakeToLowercase(Transform(t1));
    assert Nodes(Transform(t2)) == {t2, t1};
    first := t2.GetCurrent();
    assert Lower("A") == "a";
    r.Set("B");
    afterSet := t2.GetCurrent();
    inner := t1.GetCurrent();
    assert Lower("B") == "b";
  }
}
