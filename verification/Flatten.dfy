/** Flattening a nested mixture into a table of nodes, and recovering the nesting from the table. */
module Flatten {
  import opened Tsv

  /** A compiled backend: a single model, or a mixture of named experts. */
  datatype Plan =
    | Single(defaultName: string, displayLabel: string)
    | Mixture(defaultName: string, displayLabel: string, experts: seq<Expert>)

  datatype Option<+T> = None | Some(value: T)

  /** `name` is `None` when the expert is unnamed. */
  datatype Expert = Expert(name: Option<string>, backend: Plan)
  {
    function DisplayName(): string
    {
      SanitizeTsvText(if name.None? then backend.defaultName else name.value)
    }
  }

  datatype NodeMeta = NodeMeta(
    id: nat, parentId: Option<nat>, depth: nat, path: string, displayName: string, backendLabel: string,
    isMixture: bool, isLeaf: bool, isRootChild: bool)

  function Decimal(n: nat): string
  {
    if n < 10 then [('0' as int + n) as char] else Decimal(n / 10) + [('0' as int + n % 10) as char]
  }

  const ROOT_PATH := "0:root"

  function RootMeta(root: Plan): NodeMeta
  {
    NodeMeta(0, None, 0, ROOT_PATH, "root", root.displayLabel, true, false, false)
  }

  /** Where the flattening stands: the mixture whose experts are being listed. */
  datatype Parent = Parent(id: nat, depth: nat, path: string)

  function Meta(e: Expert, id: nat, parent: Parent, rootLevel: bool): NodeMeta
  {
    NodeMeta(id, Some(parent.id), parent.depth + 1,
             parent.path + "/" + Decimal(id) + ":" + SanitizePathSegment(e.DisplayName()),
             e.DisplayName(), SanitizeTsvText(e.backend.displayLabel),
             e.backend.Mixture?, !e.backend.Mixture?, rootLevel)
  }

  function AsParent(m: NodeMeta): Parent
  {
    Parent(m.id, m.depth, m.path)
  }

  /** The rows of one expert and everything nested in it. */
  function Block(e: Expert, id: nat, parent: Parent, rootLevel: bool): (r: seq<NodeMeta>)
    ensures r != []
    decreases e, 1
  {
    var meta := Meta(e, id, parent, rootLevel);
    [meta] + if e.backend.Mixture? then Blocks(e.backend.experts, id + 1, AsParent(meta), false) else []
  }

  /** The rows of a list of sibling experts. */
  function Blocks(experts: seq<Expert>, id: nat, parent: Parent, rootLevel: bool): seq<NodeMeta>
    decreases experts, 0
  {
    if experts == [] then []
    else
      var first := Block(experts[0], id, parent, rootLevel);
      first + Blocks(experts[1..], id + |first|, parent, rootLevel)
  }

  /** The ids at which each of a list of sibling experts starts. */
  function Starts(experts: seq<Expert>, id: nat, parent: Parent, rootLevel: bool): seq<nat>
  {
    if experts == [] then []
    else [id] + Starts(experts[1..], id + |Block(experts[0], id, parent, rootLevel)|, parent, rootLevel)
  }

  const ROOT := Parent(0, 0, ROOT_PATH)

  /** The whole table. */
  function Table(root: Plan): seq<NodeMeta>
    requires root.Mixture?
  {
    [RootMeta(root)] + Blocks(root.experts, 1, ROOT, true)
  }

  function Ids(from: nat, count: nat): (r: seq<nat>)
    ensures |r| == count && forall i :: 0 <= i < count ==> r[i] == from + i
  {
    seq(count, i requires 0 <= i < count => from + i)
  }

  /** What has been listed so far. */
  datatype Schema = Schema(nodes: seq<NodeMeta>, nonRootIds: seq<nat>, rootChildIds: seq<nat>)

  /** Append rows for experts, some of which are the root's own. */
  function Push(s: Schema, rows: seq<NodeMeta>, rootIds: seq<nat>): Schema
  {
    Schema(s.nodes + rows, s.nonRootIds + Ids(|s.nodes|, |rows|), s.rootChildIds + rootIds)
  }

  lemma PushPush(s: Schema, rows: seq<NodeMeta>, rootIds: seq<nat>, rows': seq<NodeMeta>, rootIds': seq<nat>)
    ensures Push(Push(s, rows, rootIds), rows', rootIds') == Push(s, rows + rows', rootIds + rootIds')
  {
    var n, a, b := |s.nodes|, |rows|, |rows'|;
    assert Ids(n, a) + Ids(n + a, b) == Ids(n, a + b);
    assert s.nonRootIds + Ids(n, a) + Ids(n + a, b) == s.nonRootIds + (Ids(n, a) + Ids(n + a, b));
    assert s.nodes + rows + rows' == s.nodes + (rows + rows');
    assert s.rootChildIds + rootIds + rootIds' == s.rootChildIds + (rootIds + rootIds');
  }

  /** The schema after listing sibling experts. */
  function Listed(s: Schema, experts: seq<Expert>, parent: Parent, rootLevel: bool): Schema
  {
    Push(s, Blocks(experts, |s.nodes|, parent, rootLevel),
         if rootLevel then Starts(experts, |s.nodes|, parent, true) else [])
  }

  /** The schema after listing one expert. */
  function ListedOne(s: Schema, e: Expert, parent: Parent, rootLevel: bool): Schema
  {
    Push(s, Block(e, |s.nodes|, parent, rootLevel), if rootLevel then [|s.nodes|] else [])
  }

  lemma ListedStep(s: Schema, experts: seq<Expert>, k: nat, parent: Parent, rootLevel: bool)
    requires k < |experts|
    ensures Listed(ListedOne(s, experts[k], parent, rootLevel), experts[k + 1..], parent, rootLevel)
         == Listed(s, experts[k..], parent, rootLevel)
  {
    var id := |s.nodes|;
    var row := Block(experts[k], id, parent, rootLevel);
    var rest := experts[k + 1..];
    assert experts[k..][0] == experts[k] && experts[k..][1..] == rest;
    var rows' := Blocks(rest, id + |row|, parent, rootLevel);
    var ids, ids' := if rootLevel then [id] else [], if rootLevel then Starts(rest, id + |row|, parent, true) else [];
    assert Blocks(experts[k..], id, parent, rootLevel) == row + rows';
    assert rootLevel ==> Starts(experts[k..], id, parent, true) == ids + ids';
    hide Block, Blocks, Starts;
    PushPush(s, row, ids, rows', ids');
  }

  lemma ListedNone(s: Schema, parent: Parent, rootLevel: bool)
    ensures Listed(s, [], parent, rootLevel) == s
  {
  }

  /** An expert's own row, then its nested experts. */
  lemma ListedNested(s: Schema, e: Expert, parent: Parent, rootLevel: bool)
    ensures var meta := Meta(e, |s.nodes|, parent, rootLevel);
            var own := Push(s, [meta], if rootLevel then [|s.nodes|] else []);
            ListedOne(s, e, parent, rootLevel)
            == if e.backend.Mixture? then Listed(own, e.backend.experts, AsParent(meta), false) else own
  {
    var meta := Meta(e, |s.nodes|, parent, rootLevel);
    var ids := if rootLevel then [|s.nodes|] else [];
    if e.backend.Mixture? {
      PushPush(s, [meta], ids, Blocks(e.backend.experts, |s.nodes| + 1, AsParent(meta), false), []);
      assert ids + [] == ids;
    } else {
      assert [meta] + [] == [meta];
    }
  }

  /** The schema of a whole mixture. */
  lemma ListedFromRoot(root: Plan)
    requires root.Mixture?
    ensures Listed(Schema([RootMeta(root)], [], []), root.experts, ROOT, true)
         == Schema(Table(root), Ids(1, |Table(root)| - 1), Starts(root.experts, 1, ROOT, true))
  {
    hide Blocks, Starts;
    var s := Schema([RootMeta(root)], [], []);
    assert |s.nodes| == 1;
    var rows := Blocks(root.experts, 1, ROOT, true);
    assert [] + Ids(1, |rows|) == Ids(1, |rows|);
    assert [] + Starts(root.experts, 1, ROOT, true) == Starts(root.experts, 1, ROOT, true);
  }

  // ---------- The flattener ----------

  class FlatSchema {
    var nodes: seq<NodeMeta>
    var nonRootIds: seq<nat>
    var rootChildIds: seq<nat>

    function State(): Schema
      reads this
    {
      Schema(nodes, nonRootIds, rootChildIds)
    }

    /** `flatten_compiled_mixture`. */
    constructor (root: Plan)
      requires root.Mixture?
      ensures nodes == Table(root)
      ensures nonRootIds == Ids(1, |nodes| - 1)
      ensures rootChildIds == Starts(root.experts, 1, ROOT, true)
    {
      hide Listed, Table, Starts, Ids, RootMeta;
      nodes, nonRootIds, rootChildIds := [RootMeta(root)], [], [];
      new;
      ListedFromRoot(root);
      assert State() == Schema([RootMeta(root)], [], []);
      FlattenExperts(root.experts, ROOT, true);
    }

    /** Push one row per expert, descending into nested mixtures before the next sibling. */
    method FlattenExperts(experts: seq<Expert>, parent: Parent, rootLevel: bool)
      modifies this
      ensures State() == Listed(old(State()), experts, parent, rootLevel)
      decreases experts, 0
    {
      hide Listed, ListedOne;
      assert experts[0..] == experts;
      for k := 0 to |experts|
        invariant Listed(State(), experts[k..], parent, rootLevel) == Listed(old(State()), experts, parent, rootLevel)
      {
        ListedStep(State(), experts, k, parent, rootLevel);
        FlattenExpert(experts[k], parent, rootLevel);
      }
      assert experts[|experts|..] == [];
      ListedNone(State(), parent, rootLevel);
    }

    /** One expert: its own row, then its nested experts. */
    method FlattenExpert(e: Expert, parent: Parent, rootLevel: bool)
      modifies this
      ensures State() == ListedOne(old(State()), e, parent, rootLevel)
      decreases e, 1
    {
      hide Listed, ListedOne, Meta;
      ListedNested(State(), e, parent, rootLevel);
      var id := |nodes|;
      var meta := Meta(e, id, parent, rootLevel);
      nodes := nodes + [meta];
      nonRootIds := nonRootIds + [id];
      if rootLevel {
        rootChildIds := rootChildIds + [id];
      }
      assert State() == Push(old(State()), [meta], if rootLevel then [id] else []);
      if e.backend.Mixture? {
        FlattenExperts(e.backend.experts, AsParent(meta), false);
      }
    }
  }
}
