/** `Visitor.walk` of `hephaestus/walk.py`: a breadth-first walk over the
    dict/list tree that calls `visit_<_type>(attr, node)` for every dict whose
    type the visitor handles. The visitor's methods are modelled by the set
    of type names it handles, and each call by the `(attr, node)` item it
    receives, appended to `visits`. */
module Walk {
  import opened Wrappers
  import opened NodeUtils

  /** A worklist entry: the key a value was reached under (`None` for the
      root; a list's dicts inherit the list's key) and the value. */
  datatype Item = Item(attr: Option<string>, value: Value)

  /** The calls made before the walk ended, and whether it ended by raising
      `KeyError` on a dict without `_type`. */
  datatype WalkResult = WalkResult(visits: seq<Item>, raised: bool)

  function ValuesOf(work: seq<Item>): (r: seq<Value>)
    ensures |r| == |work| && forall i :: 0 <= i < |work| ==> r[i] == work[i].value
  {
    if work == [] then [] else [work[0].value] + ValuesOf(work[1..])
  }

  lemma {:induction false} ValuesOfAppend(a: seq<Item>, b: seq<Item>)
    ensures ValuesOf(a + b) == ValuesOf(a) + ValuesOf(b)
  {
    assert ValuesOf(a + b) == ValuesOf(a) + ValuesOf(b);
  }

  /** A dict or a list: what the walk pushes. */
  predicate Container(v: Value) {
    v.Dict? || v.List?
  }

  /** A dict's visible entries holding a dict or a list, tagged with their
      key. */
  function Pushed(entries: seq<(string, Value)>): seq<Item>
  {
    if entries == [] then []
    else if !Hidden(entries[0].0) && Container(entries[0].1) then
      [Item(Some(entries[0].0), entries[0].1)] + Pushed(entries[1..])
    else Pushed(entries[1..])
  }

  /** A list's dict items, tagged with the list's own key. */
  function Tagged(attr: Option<string>, items: seq<Value>): seq<Item>
  {
    if items == [] then []
    else if items[0].Dict? then [Item(attr, items[0])] + Tagged(attr, items[1..])
    else Tagged(attr, items[1..])
  }

  /** What the walk pushes for a popped item. */
  function Kids(item: Item): seq<Item> {
    match item.value
    case Dict(entries) => Pushed(entries)
    case List(items) => Tagged(item.attr, items)
    case _ => []
  }

  /** The values of a run, scalars left out. */
  function Containers(vs: seq<Value>): (r: seq<Value>)
    ensures forall i :: 0 <= i < |r| ==> Container(r[i])
  {
    if vs == [] then []
    else if Container(vs[0]) then [vs[0]] + Containers(vs[1..])
    else Containers(vs[1..])
  }

  lemma {:induction false} PushedAreContainers(entries: seq<(string, Value)>)
    ensures ValuesOf(Pushed(entries)) == Containers(Visible(entries))
  {
    if entries != [] {
      PushedAreContainers(entries[1..]);
      if !Hidden(entries[0].0) {
        assert Visible(entries)[0] == entries[0].1 && Visible(entries)[1..] == Visible(entries[1..]);
      }
    }
  }

  lemma {:induction false} TaggedAreDicts(attr: Option<string>, items: seq<Value>)
    requires forall i :: 0 <= i < |items| ==> !items[i].List?
    ensures ValuesOf(Tagged(attr, items)) == Containers(items)
  {
    if items != [] {
      TaggedAreDicts(attr, items[1..]);
    }
  }

  lemma {:induction false} ContainersAppend(a: seq<Value>, b: seq<Value>)
    ensures Containers(a + b) == Containers(a) + Containers(b)
  {
    if a == [] {
      assert a + b == b;
    } else {
      assert (a + b)[0] == a[0] && (a + b)[1..] == a[1..] + b;
      ContainersAppend(a[1..], b);
    }
  }

  lemma {:induction false} ContainersSmaller(vs: seq<Value>)
    ensures SizeAll(Containers(vs)) <= SizeAll(vs)
  {
    if vs != [] {
      ContainersSmaller(vs[1..]);
    }
  }

  lemma {:induction false} ContainersKept(vs: seq<Value>)
    requires forall i :: 0 <= i < |vs| ==> Container(vs[i])
    ensures Containers(vs) == vs
  {
    if vs != [] {
      ContainersKept(vs[1..]);
    }
  }

  /** The type name of a dict, when it is a string the visitor handles. */
  predicate IsHandled(handled: set<string>, v: Value) {
    v.Dict? && match Get(v.entries, "_type")
      case Some(Str(t)) => t in handled
      case _ => false
  }

  /** One turn of the walk's loop, for the rest of the worklist. */
  function Trace(handled: set<string>, work: seq<Item>): WalkResult
    decreases SizeAll(ValuesOf(work))
  {
    if work == [] then WalkResult([], false)
    else
      var item := work[0];
      ValuesOfAppend([item], work[1..]);
      assert [item] + work[1..] == work;
      match item.value
      case Dict(entries) =>
        if Get(entries, "_type").None? then WalkResult([], true)
        else
          var here := if IsHandled(handled, item.value) then [item] else [];
          var next := work[1..] + Pushed(entries);
          TraceShrinks(work[1..], item.value, Pushed(entries));
          var rest := Trace(handled, next);
          WalkResult(here + rest.visits, rest.raised)
      case List(items) =>
        var next := work[1..] + Tagged(item.attr, items);
        TraceShrinks(work[1..], item.value, Tagged(item.attr, items));
        Trace(handled, next)
      case _ =>
        Trace(handled, work[1..])
  }

  lemma {:induction false} TraceShrinks(rest: seq<Item>, v: Value, kids: seq<Item>)
    requires v.Dict? ==> kids == Pushed(v.entries)
    requires v.List? ==> exists attr :: kids == Tagged(attr, v.items)
    requires Container(v)
    ensures SizeAll(ValuesOf(rest + kids)) < SizeAll([v] + ValuesOf(rest))
  {
    ValuesOfAppend(rest, kids);
    SizeAllAppend(ValuesOf(rest), ValuesOf(kids));
    SizeAllAppend([v], ValuesOf(rest));
    assert SizeAll([v]) == Size(v);
    ExpandShrinks(v);
    if v.Dict? {
      PushedAreContainers(v.entries);
      ContainersSmaller(Visible(v.entries));
    } else {
      var attr :| kids == Tagged(attr, v.items);
      TaggedSmaller(attr, v.items);
    }
  }

  lemma {:induction false} TaggedSmaller(attr: Option<string>, items: seq<Value>)
    ensures SizeAll(ValuesOf(Tagged(attr, items))) <= SizeAll(items)
  {
    if items != [] {
      TaggedSmaller(attr, items[1..]);
    }
  }

  /** The visits already made, followed by what the rest of the walk does. */
  function After(done: seq<Item>, rest: WalkResult): WalkResult {
    WalkResult(done + rest.visits, rest.raised)
  }

  class Visitor {
    /** The `_type` names this visitor has a `visit_<name>` method for. */
    const handled: set<string>
    /** Every `visit_<name>(attr, node)` call made so far. */
    var visits: seq<Item>

    constructor(handled: set<string>)
      ensures this.handled == handled && visits == []
    {
      this.handled := handled;
      visits := [];
    }

    /** `walk`, from the parsed tree `root`; `ok` is false when it raised. */
    method Walk(root: Value) returns (ok: bool)
      modifies this
      ensures visits == old(visits) + Trace(handled, [Item(None, root)]).visits
      ensures ok == !Trace(handled, [Item(None, root)]).raised
    {
      var nodes := [Item(None, root)];
      var i := 0;
      ghost var done: seq<Item> := [];
      assert nodes[0..] == nodes && [] + Trace(handled, nodes).visits == Trace(handled, nodes).visits;
      while i < |nodes|
        invariant 0 <= i <= |nodes|
        invariant visits == old(visits) + done
        invariant After(done, Trace(handled, nodes[i..])) == Trace(handled, [Item(None, root)])
        decreases SizeAll(ValuesOf(nodes[i..]))
      {
        var item := nodes[i];
        ghost var rest := nodes[i + 1..];
        ghost var here: seq<Item> := [];
        var kids: seq<Item> := [];
        if item.value.Dict? {
          var nodeType := Get(item.value.entries, "_type");
          if nodeType.None? {
            TraceRaises(nodes, i, done, handled);
            return false;
          }
          if IsHandled(handled, item.value) {
            visits := visits + [item];
            here := [item];
          }
          kids := Pushed(item.value.entries);
        } else if item.value.List? {
          kids := Tagged(item.attr, item.value.items);
        }
        assert nodes[i..][0] == nodes[i] && nodes[i..][1..] == nodes[i + 1..];
        TraceTake(nodes[i..], done, handled, here, kids);
        TailAfterAppend(nodes, i, kids);
        done := done + here;
        nodes := nodes + kids;
        i := i + 1;
      }
      assert nodes[i..] == [] && done + [] == done;
      return true;
    }
  }

  lemma {:induction false} TailAfterAppend(nodes: seq<Item>, i: nat, kids: seq<Item>)
    requires i < |nodes|
    ensures (nodes + kids)[i + 1..] == nodes[i + 1..] + kids
  {
  }

  /** A dict without `_type` ends the walk with what was visited so far. */
  lemma {:induction false} TraceRaises(nodes: seq<Item>, i: nat, done: seq<Item>, handled: set<string>)
    requires i < |nodes| && nodes[i].value.Dict? && Get(nodes[i].value.entries, "_type").None?
    ensures After(done, Trace(handled, nodes[i..])) == WalkResult(done, true)
  {
    assert nodes[i..][0] == nodes[i];
    assert done + [] == done;
  }

  /** One turn of the walk's loop: the item at the front is visited or
      not, its children are queued, and the worklist shrinks. */
  lemma {:induction false} TraceUnfold(work: seq<Item>, handled: set<string>, here: seq<Item>, kids: seq<Item>)
    requires work != []
    requires work[0].value.Dict? ==>
      Get(work[0].value.entries, "_type").Some? && kids == Pushed(work[0].value.entries) &&
      here == (if IsHandled(handled, work[0].value) then [work[0]] else [])
    requires work[0].value.List? ==> kids == Tagged(work[0].attr, work[0].value.items) && here == []
    requires !Container(work[0].value) ==> kids == [] && here == []
    ensures var t := Trace(handled, work[1..] + kids);
      Trace(handled, work) == WalkResult(here + t.visits, t.raised)
    ensures SizeAll(ValuesOf(work[1..] + kids)) < SizeAll(ValuesOf(work))
  {
    var v := work[0].value;
    var rest := work[1..];
    SplitFirst(work);
    SizeAllAppend([v], ValuesOf(rest));
    if Container(v) {
      TraceShrinks(rest, v, kids);
    } else {
      assert rest + kids == rest;
    }
  }

  /** The same turn, after the visits already made. */
  lemma {:induction false} TraceTake(work: seq<Item>, done: seq<Item>, handled: set<string>, here: seq<Item>, kids: seq<Item>)
    requires work != []
    requires work[0].value.Dict? ==>
      Get(work[0].value.entries, "_type").Some? && kids == Pushed(work[0].value.entries) &&
      here == (if IsHandled(handled, work[0].value) then [work[0]] else [])
    requires work[0].value.List? ==> kids == Tagged(work[0].attr, work[0].value.items) && here == []
    requires !Container(work[0].value) ==> kids == [] && here == []
    ensures After(done, Trace(handled, work)) == After(done + here, Trace(handled, work[1..] + kids))
    ensures SizeAll(ValuesOf(work[1..] + kids)) < SizeAll(ValuesOf(work))
  {
    TraceUnfold(work, handled, here, kids);
    var t := Trace(handled, work[1..] + kids);
    assert done + (here + t.visits) == (done + here) + t.visits;
  }

  // ---------------------------------------------------------------------
  // Properties
  // ---------------------------------------------------------------------

  /** The root is visited first, under no key, when its type is handled. */
  lemma {:induction false} RootFirst(handled: set<string>, root: Value)
    requires IsHandled(handled, root)
    ensures var t := Trace(handled, [Item(None, root)]);
      |t.visits| >= 1 && t.visits[0] == Item(None, root)
  {
    assert [Item(None, root)][1..] == [];
  }

  /** Every recorded call is on a dict of a handled type. */
  predicate AllHandled(handled: set<string>, visits: seq<Item>) {
    forall i :: 0 <= i < |visits| ==> IsHandled(handled, visits[i].value)
  }

  lemma {:induction false} AllHandledAppend(handled: set<string>, a: seq<Item>, b: seq<Item>)
    requires AllHandled(handled, a) && AllHandled(handled, b)
    ensures AllHandled(handled, a + b)
  {
    assert forall i :: |a| <= i < |a + b| ==> (a + b)[i] == b[i - |a|];
  }

  /** A dict is visited only when it names a handled type; nothing else is
      ever passed to a visit method. */
  lemma {:induction false} OnlyHandledVisited(handled: set<string>, work: seq<Item>)
    ensures AllHandled(handled, Trace(handled, work).visits)
    decreases SizeAll(ValuesOf(work))
  {
    if work != [] {
      var item := work[0];
      var here := if IsHandled(handled, item.value) then [item] else [];
      if !(item.value.Dict? && Get(item.value.entries, "_type").None?) {
        TraceUnfold(work, handled, here, Kids(item));
        OnlyHandledVisited(handled, work[1..] + Kids(item));
        AllHandledAppend(handled, here, Trace(handled, work[1..] + Kids(item)).visits);
      }
    }
  }

  /** A tree the walk and `iter_node_attributes` see alike: every dict has a
      `_type`, and no list holds a list directly. */
  predicate Tidy(v: Value)
    decreases Size(v), 0
  {
    ExpandShrinks(v);
    match v
    case Dict(entries) => Get(entries, "_type").Some? && TidyAll(Expand(v))
    case List(items) => (forall i :: 0 <= i < |items| ==> !items[i].List?) && TidyAll(items)
    case _ => true
  }

  predicate TidyAll(vs: seq<Value>)
    decreases SizeAll(vs), 1
  {
    vs == [] || (Tidy(vs[0]) && TidyAll(vs[1..]))
  }

  lemma {:induction false} TidyAllAppend(a: seq<Value>, b: seq<Value>)
    ensures TidyAll(a + b) <==> TidyAll(a) && TidyAll(b)
  {
    if a == [] {
      assert a + b == b;
    } else {
      assert (a + b)[0] == a[0] && (a + b)[1..] == a[1..] + b;
      TidyAllAppend(a[1..], b);
    }
  }

  lemma {:induction false} TidyContainers(vs: seq<Value>)
    requires TidyAll(vs)
    ensures TidyAll(Containers(vs))
  {
    if vs != [] {
      TidyContainers(vs[1..]);
    }
  }

  /** The nodes a visit method was called with. */
  function Nodes(visits: seq<Item>): seq<Value> {
    ValuesOf(visits)
  }

  /** The handled nodes of a run, in order. */
  function HandledOnly(handled: set<string>, vs: seq<Value>): (r: seq<Value>)
    ensures |r| <= |vs|
  {
    if vs == [] then []
    else (if IsHandled(handled, vs[0]) then [vs[0]] else []) + HandledOnly(handled, vs[1..])
  }

  lemma {:induction false} HandledOnlyAppend(handled: set<string>, a: seq<Value>, b: seq<Value>)
    ensures HandledOnly(handled, a + b) == HandledOnly(handled, a) + HandledOnly(handled, b)
  {
    if a == [] {
      assert a + b == b;
    } else {
      assert (a + b)[0] == a[0] && (a + b)[1..] == a[1..] + b;
      HandledOnlyAppend(handled, a[1..], b);
    }
  }

  /** Scalars on the worklist of `iter_node_attributes` yield nothing and
      queue nothing, so leaving them out changes nothing. */
  lemma {:induction false} AttrsIgnoreScalars(work: seq<Value>)
    ensures Attrs(work) == Attrs(Containers(work))
    decreases SizeAll(work)
  {
    if work != [] {
      var x := work[0];
      SizeAllAppend(work[1..], Expand(x));
      ExpandShrinks(x);
      AttrsIgnoreScalars(work[1..] + Expand(x));
      ContainersAppend(work[1..], Expand(x));
      if Container(x) {
        var c := Containers(work[1..]);
        assert Containers(work) == [x] + c;
        assert ([x] + c)[0] == x && ([x] + c)[1..] == c;
        ContainersSmaller(work[1..]);
        SizeAllAppend(c, Expand(x));
        AttrsIgnoreScalars(c + Expand(x));
        ContainersAppend(c, Expand(x));
        ContainersKept(c);
      } else {
        assert Expand(x) == [] && work[1..] + [] == work[1..];
        AttrsIgnoreScalars(work[1..]);
      }
    }
  }

  /** On a tidy tree the walk visits exactly the nodes `iter_node_attributes`
      yields whose type the visitor handles, in the same order, and never
      raises. */
  lemma {:induction false} WalkAgreesWithIterNodeAttributes(handled: set<string>, root: Value)
    requires Tidy(root) && Container(root)
    ensures !Trace(handled, [Item(None, root)]).raised
    ensures Nodes(Trace(handled, [Item(None, root)]).visits) == HandledOnly(handled, Attrs([root]))
  {
    assert ValuesOf([Item(None, root)]) == [root];
    assert [root][1..] == [];
    AgreeOn(handled, [Item(None, root)]);
  }

  lemma {:induction false} AgreeOn(handled: set<string>, work: seq<Item>)
    requires TidyAll(ValuesOf(work))
    requires forall i :: 0 <= i < |work| ==> Container(work[i].value)
    ensures !Trace(handled, work).raised
    ensures Nodes(Trace(handled, work).visits) == HandledOnly(handled, Attrs(ValuesOf(work)))
    decreases SizeAll(ValuesOf(work))
  {
    if work != [] {
      var item := work[0];
      var kids := Kids(item);
      var here := if IsHandled(handled, item.value) then [item] else [];
      AgreeNext(work, work[1..] + kids);
      AgreeOn(handled, work[1..] + kids);
      AgreeAfter(handled, work, kids, here);
    }
  }

  /** The worklist after one turn is tidy, holds containers only, and is
      smaller. */
  lemma {:induction false} AgreeNext(work: seq<Item>, next: seq<Item>)
    requires work != [] && TidyAll(ValuesOf(work))
    requires forall i :: 0 <= i < |work| ==> Container(work[i].value)
    requires next == work[1..] + Kids(work[0])
    ensures TidyAll(ValuesOf(next))
    ensures forall i :: 0 <= i < |next| ==> Container(next[i].value)
    ensures SizeAll(ValuesOf(next)) < SizeAll(ValuesOf(work))
  {
    var kids := Kids(work[0]);
    SplitFirst(work);
    KidsFacts(work[0], kids);
    TidyAllAppend(ValuesOf(work[1..]), ValuesOf(kids));
    ValuesOfAppend(work[1..], kids);
    TraceShrinks(work[1..], work[0].value, kids);
  }

  /** One turn of both walks, given that they agree on the rest. */
  lemma {:induction false} AgreeAfter(handled: set<string>, work: seq<Item>, kids: seq<Item>, here: seq<Item>)
    requires work != [] && TidyAll(ValuesOf(work))
    requires forall i :: 0 <= i < |work| ==> Container(work[i].value)
    requires kids == Kids(work[0])
    requires here == if IsHandled(handled, work[0].value) then [work[0]] else []
    requires !Trace(handled, work[1..] + kids).raised
    requires Nodes(Trace(handled, work[1..] + kids).visits) ==
      HandledOnly(handled, Attrs(ValuesOf(work[1..] + kids)))
    ensures !Trace(handled, work).raised
    ensures Nodes(Trace(handled, work).visits) == HandledOnly(handled, Attrs(ValuesOf(work)))
  {
    var v := work[0].value;
    var rest := work[1..];
    var vs := ValuesOf(rest);
    SplitFirst(work);
    KidsFacts(work[0], kids);
    ValuesOfAppend(rest, kids);
    ContainersOfRest(work);
    TraceUnfold(work, handled, here, kids);
    // iter_node_attributes queues the same containers, and scalars too.
    QueuesAgree(vs, v, ValuesOf(kids));
    var yielded := if v.Dict? then [v] else [];
    AttrsTake(ValuesOf(work), v, vs);
    HandledOnlyAppend(handled, yielded, Attrs(vs + Expand(v)));
    var t := Trace(handled, rest + kids);
    ValuesOfAppend(here, t.visits);
    assert HandledOnly(handled, yielded) == ValuesOf(here);
  }

  lemma {:induction false} SplitFirst(work: seq<Item>)
    requires work != []
    ensures ValuesOf(work) == [work[0].value] + ValuesOf(work[1..])
    ensures TidyAll(ValuesOf(work)) ==> Tidy(work[0].value) && TidyAll(ValuesOf(work[1..]))
  {
    assert work == [work[0]] + work[1..];
    ValuesOfAppend([work[0]], work[1..]);
    var vs := ValuesOf(work[1..]);
    assert ([work[0].value] + vs)[0] == work[0].value && ([work[0].value] + vs)[1..] == vs;
  }

  lemma {:induction false} ContainersOfRest(work: seq<Item>)
    requires work != [] && forall i :: 0 <= i < |work| ==> Container(work[i].value)
    ensures forall i :: 0 <= i < |ValuesOf(work[1..])| ==> Container(ValuesOf(work[1..])[i])
  {
  }

  lemma {:induction false} AttrsTake(work: seq<Value>, v: Value, vs: seq<Value>)
    requires work == [v] + vs
    ensures Attrs(work) == (if v.Dict? then [v] else []) + Attrs(vs + Expand(v))
  {
    assert work[0] == v && work[1..] == vs;
  }

  /** What the walk queues for a tidy container is what
      `iter_node_attributes` queues, scalars left out. */
  lemma {:induction false} KidsFacts(item: Item, kids: seq<Item>)
    requires Tidy(item.value) && Container(item.value)
    requires kids == Kids(item)
    ensures ValuesOf(kids) == Containers(Expand(item.value))
    ensures TidyAll(ValuesOf(kids))
    ensures forall i :: 0 <= i < |kids| ==> Container(kids[i].value)
  {
    var v := item.value;
    if v.Dict? {
      PushedAreContainers(v.entries);
    } else {
      TaggedAreDicts(item.attr, v.items);
    }
    ExpandShrinks(v);
    TidyContainers(Expand(v));
    assert forall i :: 0 <= i < |kids| ==> kids[i].value == ValuesOf(kids)[i];
  }

  /** Queuing a value's containers in place of all its children changes
      nothing `iter_node_attributes` yields. */
  lemma {:induction false} QueuesAgree(vs: seq<Value>, v: Value, kids: seq<Value>)
    requires forall i :: 0 <= i < |vs| ==> Container(vs[i])
    requires kids == Containers(Expand(v))
    ensures Attrs(vs + Expand(v)) == Attrs(vs + kids)
  {
    AttrsIgnoreScalars(vs + Expand(v));
    ContainersAppend(vs, Expand(v));
    ContainersKept(vs);
    AttrsIgnoreScalars(vs + kids);
    ContainersAppend(vs, kids);
    ContainersKept(kids);
  }

  /** `visit_SelectStatement` is called on the statement at the root. */
  lemma {:induction false} VisitsSelectStatement(ss: Value, rest: seq<(string, Value)>)
    requires ss == Dict([("_type", Str("SelectStatement"))] + rest)
    ensures var t := Trace({"SelectStatement"}, [Item(None, ss)]);
      |t.visits| >= 1 && t.visits[0] == Item(None, ss)
  {
    assert Get(ss.entries, "_type") == Some(Str("SelectStatement"));
    RootFirst({"SelectStatement"}, ss);
  }
}
