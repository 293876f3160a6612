/** The table of a nested mixture is a preorder numbering from which the nesting can be read back. */
module FlattenLaws {
  import opened Tsv
  import opened Flatten

  // ---------- Preorder ----------

  /** Node `i` is node `j` or one of its ancestors, following parent ids. */
  predicate OnPath(t: seq<NodeMeta>, i: nat, j: nat)
    decreases j
  {
    i == j
    || (j < |t| && t[j].parentId.Some? && t[j].parentId.value < j && OnPath(t, i, t[j].parentId.value))
  }

  /** What row `k` of a table says about its parent's row. */
  predicate NodeFits(t: seq<NodeMeta>, k: nat)
    requires 0 < k < |t|
  {
    var row := t[k];
    && row.id == k
    && row.isLeaf == !row.isMixture
    && row.parentId.Some? && row.parentId.value < k
    && var above := t[row.parentId.value];
       && above.isMixture
       && row.depth == above.depth + 1
       && row.path == above.path + "/" + Decimal(k) + ":" + SanitizePathSegment(row.displayName)
       && row.isRootChild == (row.parentId.value == 0)
       && OnPath(t, row.parentId.value, k - 1)
  }

  ghost predicate Preorder(t: seq<NodeMeta>)
  {
    && t != []
    && t[0].id == 0 && t[0].parentId == None && t[0].depth == 0
    && forall k :: 0 < k < |t| ==> NodeFits(t, k)
  }

  lemma {:induction false} OnPathIsLocal(t: seq<NodeMeta>, more: seq<NodeMeta>, i: nat, j: nat)
    requires j < |t|
    ensures OnPath(t + more, i, j) == OnPath(t, i, j)
    decreases j
  {
    if i != j && t[j].parentId.Some? && t[j].parentId.value < j {
      OnPathIsLocal(t, more, i, t[j].parentId.value);
    }
  }

  lemma {:induction false} OnPathIsTransitive(t: seq<NodeMeta>, i: nat, j: nat, k: nat)
    requires OnPath(t, i, j) && OnPath(t, j, k)
    ensures OnPath(t, i, k)
    decreases k
  {
    if j != k {
      OnPathIsTransitive(t, i, j, t[k].parentId.value);
    }
  }

  lemma {:induction false} OnPathIsBelow(t: seq<NodeMeta>, i: nat, j: nat)
    requires OnPath(t, i, j)
    ensures i <= j
    decreases j
  {
    if i != j {
      OnPathIsBelow(t, i, t[j].parentId.value);
    }
  }

  lemma FitIsLocal(t: seq<NodeMeta>, more: seq<NodeMeta>, k: nat)
    requires 0 < k < |t| && NodeFits(t, k)
    ensures NodeFits(t + more, k)
  {
    OnPathIsLocal(t, more, t[k].parentId.value, k - 1);
  }

  /** The listing may continue with experts of `parent`, the mixture it is inside of. */
  ghost predicate Inside(t: seq<NodeMeta>, parent: Parent)
  {
    && Preorder(t)
    && parent.id < |t|
    && t[parent.id].isMixture && AsParent(t[parent.id]) == parent
    && OnPath(t, parent.id, |t| - 1)
  }

  lemma PreorderGrows(t: seq<NodeMeta>, row: NodeMeta)
    requires Preorder(t) && NodeFits(t + [row], |t|)
    ensures Preorder(t + [row])
  {
    hide NodeFits;
    var u := t + [row];
    forall k | 0 < k < |u| ensures NodeFits(u, k) {
      if k < |t| {
        FitIsLocal(t, [row], k);
      }
    }
  }

  lemma InsideAfterRow(t: seq<NodeMeta>, e: Expert, parent: Parent)
    requires Inside(t, parent)
    ensures var meta := Meta(e, |t|, parent, parent.id == 0);
            && Preorder(t + [meta])
            && OnPath(t + [meta], parent.id, |t|)
            && (e.backend.Mixture? ==> Inside(t + [meta], AsParent(meta)))
  {
    hide Preorder, NodeFits;
    var n := |t|;
    var meta := Meta(e, n, parent, parent.id == 0);
    var u := t + [meta];
    OnPathIsLocal(t, [meta], parent.id, n - 1);
    RowFits(u, n, e, parent);
    PreorderGrows(t, meta);
    assert OnPath(u, parent.id, parent.id);
    assert OnPath(u, n, n);
  }

  lemma RowFits(u: seq<NodeMeta>, k: nat, e: Expert, parent: Parent)
    requires parent.id < k < |u| && u[k] == Meta(e, k, parent, parent.id == 0)
    requires u[parent.id].isMixture && AsParent(u[parent.id]) == parent
    requires OnPath(u, parent.id, k - 1)
    ensures NodeFits(u, k)
  {
  }

  lemma InsideStays(t: seq<NodeMeta>, more: seq<NodeMeta>, parent: Parent)
    requires Inside(t, parent) && Preorder(t + more)
    requires OnPath(t + more, parent.id, |t| + |more| - 1)
    ensures Inside(t + more, parent)
  {
  }

  lemma BlockOf(e: Expert, id: nat, parent: Parent, rootLevel: bool)
    ensures var meta := Meta(e, id, parent, rootLevel);
            && AsParent(meta).id == id
            && Block(e, id, parent, rootLevel)
               == if e.backend.Mixture? then [meta] + Blocks(e.backend.experts, id + 1, AsParent(meta), false)
                  else [meta]
  {
  }

  lemma NestedKeepsPreorder(t: seq<NodeMeta>, meta: NodeMeta, nested: seq<NodeMeta>, parent: Parent)
    requires Inside(t, parent)
    requires OnPath(t + [meta], parent.id, |t|)
    requires AsParent(meta).id == |t| && Inside(t + [meta] + nested, AsParent(meta))
    ensures Inside(t + ([meta] + nested), parent)
  {
    hide NodeFits;
    var u := t + [meta];
    assert u + nested == t + ([meta] + nested);
    OnPathIsLocal(u, nested, parent.id, |t|);
    OnPathIsTransitive(u + nested, parent.id, |t|, |u| + |nested| - 1);
    InsideStays(t, [meta] + nested, parent);
  }

  lemma {:induction false} BlockKeepsPreorder(t: seq<NodeMeta>, e: Expert, parent: Parent)
    requires Inside(t, parent)
    ensures Inside(t + Block(e, |t|, parent, parent.id == 0), parent)
    decreases e, 1
  {
    hide Preorder, OnPath, NodeFits, Meta, AsParent, Block;
    var meta := Meta(e, |t|, parent, parent.id == 0);
    BlockOf(e, |t|, parent, parent.id == 0);
    InsideAfterRow(t, e, parent);
    if e.backend.Mixture? {
      BlocksKeepPreorder(t + [meta], e.backend.experts, AsParent(meta));
      NestedKeepsPreorder(t, meta, Blocks(e.backend.experts, |t| + 1, AsParent(meta), false), parent);
    } else {
      InsideStays(t, [meta], parent);
    }
  }

  lemma {:induction false} BlocksKeepPreorder(t: seq<NodeMeta>, experts: seq<Expert>, parent: Parent)
    requires Inside(t, parent)
    ensures Inside(t + Blocks(experts, |t|, parent, parent.id == 0), parent)
    decreases experts, 0
  {
    hide Inside, Block;
    if experts == [] {
      assert t + [] == t;
    } else {
      var first := Block(experts[0], |t|, parent, parent.id == 0);
      BlockKeepsPreorder(t, experts[0], parent);
      BlocksKeepPreorder(t + first, experts[1..], parent);
      var rest := Blocks(experts[1..], |t| + |first|, parent, parent.id == 0);
      assert t + first + rest == t + (first + rest);
    }
  }

  /** The whole table is a preorder numbering. */
  lemma TableIsPreorder(root: Plan)
    requires root.Mixture?
    ensures Preorder(Table(root))
    ensures Table(root)[0] == RootMeta(root)
  {
    assert AsParent(RootMeta(root)) == ROOT;
    assert OnPath([RootMeta(root)], 0, 0);
    BlocksKeepPreorder([RootMeta(root)], root.experts, ROOT);
  }

  // ---------- Subtrees are intervals ----------

  lemma {:induction false} SubtreeHasNoGap(t: seq<NodeMeta>, i: nat, k: nat, j: nat)
    requires Preorder(t) && j < |t|
    requires OnPath(t, i, j) && i <= k <= j
    ensures OnPath(t, i, k)
    decreases j
  {
    hide Preorder;
    if k < j {
      ParentCoversPredecessor(t, j);
      OnPathIsTransitive(t, i, t[j].parentId.value, j - 1);
      SubtreeHasNoGap(t, i, k, j - 1);
    }
  }

  lemma ParentCoversPredecessor(t: seq<NodeMeta>, j: nat)
    requires Preorder(t) && 0 < j < |t|
    ensures t[j].parentId.Some? && t[j].parentId.value < j && OnPath(t, t[j].parentId.value, j - 1)
  {
    assert NodeFits(t, j);
  }

  /** The first row at or after `k` that is not below node `i`. */
  function SubtreeEnd(t: seq<NodeMeta>, i: nat, k: nat): (end: nat)
    requires k <= |t|
    ensures k <= end <= |t|
    ensures forall j :: k <= j < end ==> OnPath(t, i, j)
    ensures end < |t| ==> !OnPath(t, i, end)
    decreases |t| - k
  {
    if k < |t| && OnPath(t, i, k) then SubtreeEnd(t, i, k + 1) else k
  }

  /** A node and everything nested in it occupy one run of consecutive rows. */
  lemma SubtreesAreIntervals(t: seq<NodeMeta>, i: nat)
    requires Preorder(t) && i < |t|
    ensures var end := SubtreeEnd(t, i, i);
            i < end <= |t| && forall j :: 0 <= j < |t| ==> (OnPath(t, i, j) <==> i <= j < end)
  {
    hide Preorder;
    var end := SubtreeEnd(t, i, i);
    assert OnPath(t, i, i);
    forall j | 0 <= j < |t| ensures OnPath(t, i, j) <==> i <= j < end {
      if OnPath(t, i, j) {
        OnPathIsBelow(t, i, j);
        if end <= j {
          SubtreeHasNoGap(t, i, end, j);
        }
      }
    }
  }

  // ---------- The root's experts ----------

  /** Ids of the rows flagged as root children, when the first row has id `id`. */
  function FlaggedIds(rows: seq<NodeMeta>, id: nat): seq<nat>
  {
    if rows == [] then []
    else (if rows[0].isRootChild then [id] else []) + FlaggedIds(rows[1..], id + 1)
  }

  lemma {:induction false} FlaggedIdsOfConcat(a: seq<NodeMeta>, b: seq<NodeMeta>, id: nat)
    ensures FlaggedIds(a + b, id) == FlaggedIds(a, id) + FlaggedIds(b, id + |a|)
  {
    if a == [] {
      assert a + b == b;
    } else {
      hide FlaggedIds;
      FlaggedIdsOfConcat(a[1..], b, id + 1);
      FlaggedIdsStep(a, id);
      FlaggedIdsStep(a + b, id);
      assert (a + b)[1..] == a[1..] + b;
      Regroup(if a[0].isRootChild then [id] else [], FlaggedIds(a[1..], id + 1), FlaggedIds(b, id + |a|));
    }
  }

  lemma Regroup(a: seq<nat>, b: seq<nat>, c: seq<nat>)
    ensures a + b + c == a + (b + c)
  {
  }

  lemma FlaggedIdsStep(rows: seq<NodeMeta>, id: nat)
    requires rows != []
    ensures FlaggedIds(rows, id) == (if rows[0].isRootChild then [id] else []) + FlaggedIds(rows[1..], id + 1)
  {
  }

  lemma {:induction false} BlockFlags(e: Expert, id: nat, parent: Parent, rootLevel: bool)
    ensures FlaggedIds(Block(e, id, parent, rootLevel), id) == if rootLevel then [id] else []
    decreases e, 1
  {
    hide Block;
    var meta := Meta(e, id, parent, rootLevel);
    BlockOf(e, id, parent, rootLevel);
    if e.backend.Mixture? {
      BlocksFlags(e.backend.experts, id + 1, AsParent(meta), false);
      FlaggedIdsOfConcat([meta], Blocks(e.backend.experts, id + 1, AsParent(meta), false), id);
    }
  }

  lemma {:induction false} BlocksFlags(experts: seq<Expert>, id: nat, parent: Parent, rootLevel: bool)
    ensures FlaggedIds(Blocks(experts, id, parent, rootLevel), id)
         == if rootLevel then Starts(experts, id, parent, true) else []
    decreases experts, 0
  {
    if experts != [] {
      hide Block, Blocks, FlaggedIds;
      var first := Block(experts[0], id, parent, rootLevel);
      BlocksStep(experts, id, parent, rootLevel);
      BlockFlags(experts[0], id, parent, rootLevel);
      BlocksFlags(experts[1..], id + |first|, parent, rootLevel);
      FlaggedIdsOfConcat(first, Blocks(experts[1..], id + |first|, parent, rootLevel), id);
    }
  }

  /** Row `k` describes expert `e`. */
  predicate Describes(row: NodeMeta, e: Expert)
  {
    && row.displayName == e.DisplayName()
    && row.backendLabel == SanitizeTsvText(e.backend.displayLabel)
    && row.isMixture == e.backend.Mixture?
  }

  lemma {:induction false} StartsDescribe(experts: seq<Expert>, id: nat, parent: Parent, rootLevel: bool, k: nat)
    requires k < |experts|
    ensures |Starts(experts, id, parent, rootLevel)| == |experts|
    ensures var at := Starts(experts, id, parent, rootLevel)[k];
            var rows := Blocks(experts, id, parent, rootLevel);
            id <= at < id + |rows| && Describes(rows[at - id], experts[k])
    decreases experts
  {
    hide Block, Describes;
    var first := Block(experts[0], id, parent, rootLevel);
    var rest := Blocks(experts[1..], id + |first|, parent, rootLevel);
    BlockDescribes(experts[0], id, parent, rootLevel);
    if |experts| > 1 {
      StartsDescribe(experts[1..], id + |first|, parent, rootLevel, if k == 0 then 0 else k - 1);
      if k > 0 {
        var at := Starts(experts[1..], id + |first|, parent, rootLevel)[k - 1];
        assert (first + rest)[at - id] == rest[at - id - |first|];
      }
    }
  }

  lemma BlockDescribes(e: Expert, id: nat, parent: Parent, rootLevel: bool)
    ensures Describes(Block(e, id, parent, rootLevel)[0], e)
  {
  }

  lemma RootIdsAreFlagged(root: Plan)
    requires root.Mixture?
    ensures Starts(root.experts, 1, ROOT, true) == FlaggedIds(Table(root), 0)
  {
    hide Blocks, Starts;
    BlocksFlags(root.experts, 1, ROOT, true);
    FlaggedIdsOfConcat([RootMeta(root)], Blocks(root.experts, 1, ROOT, true), 0);
    assert FlaggedIds([RootMeta(root)], 0) == [];
  }

  lemma RootIdDescribes(root: Plan, k: nat)
    requires root.Mixture? && k < |root.experts|
    ensures |Starts(root.experts, 1, ROOT, true)| == |root.experts|
    ensures var at := Starts(root.experts, 1, ROOT, true)[k];
            at < |Table(root)| && Describes(Table(root)[at], root.experts[k])
  {
    hide Blocks, Starts, Describes;
    StartsDescribe(root.experts, 1, ROOT, true, k);
  }

  lemma {:induction false} OneStartEach(experts: seq<Expert>, id: nat, parent: Parent, rootLevel: bool)
    ensures |Starts(experts, id, parent, rootLevel)| == |experts|
  {
    hide Block;
    if experts != [] {
      OneStartEach(experts[1..], id + |Block(experts[0], id, parent, rootLevel)|, parent, rootLevel);
    }
  }

  /** `root_child_ids` lists the rows whose parent is the root, in order: one per root expert, describing it. */
  lemma RootChildrenAreTheExperts(root: Plan)
    requires root.Mixture?
    ensures var t := Table(root);
            var ids := Starts(root.experts, 1, ROOT, true);
            && |ids| == |root.experts|
            && ids == FlaggedIds(t, 0)
            && (forall k :: 0 < k < |t| ==> t[k].isRootChild == (t[k].parentId == Some(0)))
            && forall k :: 0 <= k < |ids| ==> ids[k] < |t| && Describes(t[ids[k]], root.experts[k])
  {
    var t := Table(root);
    var ids := Starts(root.experts, 1, ROOT, true);
    hide Preorder, Table, Starts, Describes;
    TableIsPreorder(root);
    RootIdsAreFlagged(root);
    OneStartEach(root.experts, 1, ROOT, true);
    forall k | 0 < k < |t| ensures t[k].isRootChild == (t[k].parentId == Some(0)) {
      RootChildFlag(t, k);
    }
    forall k | 0 <= k < |ids| ensures ids[k] < |t| && Describes(t[ids[k]], root.experts[k]) {
      RootIdDescribes(root, k);
    }
  }

  lemma RootChildFlag(t: seq<NodeMeta>, k: nat)
    requires Preorder(t) && 0 < k < |t|
    ensures t[k].isRootChild == (t[k].parentId == Some(0))
  {
    assert NodeFits(t, k);
  }

  // ---------- Reading the nesting back ----------

  /** What the table is about: names, labels and nesting. */
  datatype Outline = Outline(displayName: string, backendLabel: string, isMixture: bool, children: seq<Outline>)

  function OutlineOf(e: Expert): Outline
    decreases e, 1
  {
    Outline(e.DisplayName(), SanitizeTsvText(e.backend.displayLabel), e.backend.Mixture?,
            if e.backend.Mixture? then Outlines(e.backend.experts) else [])
  }

  function Outlines(experts: seq<Expert>): seq<Outline>
    decreases experts, 0
  {
    if experts == [] then [] else [OutlineOf(experts[0])] + Outlines(experts[1..])
  }

  /** Read the children of `parent` from row `pos` on, using only parent ids; also where they end. */
  function Read(t: seq<NodeMeta>, pos: nat, parent: nat): (r: (seq<Outline>, nat))
    requires pos <= |t|
    ensures pos <= r.1 <= |t|
    decreases |t| - pos
  {
    if pos == |t| || t[pos].parentId != Some(parent) then ([], pos)
    else
      var (children, next) := Read(t, pos + 1, pos);
      var (siblings, end) := Read(t, next, parent);
      ([Outline(t[pos].displayName, t[pos].backendLabel, t[pos].isMixture, children)] + siblings, end)
  }

  /** Table `t` holds `rows` from row `pos` on. */
  predicate Holds(t: seq<NodeMeta>, pos: nat, rows: seq<NodeMeta>)
  {
    pos + |rows| <= |t| && t[pos..pos + |rows|] == rows
  }

  lemma HoldsParts(t: seq<NodeMeta>, pos: nat, a: seq<NodeMeta>, b: seq<NodeMeta>)
    requires Holds(t, pos, a + b)
    ensures Holds(t, pos, a) && Holds(t, pos + |a|, b)
  {
    var all := t[pos..pos + |a + b|];
    assert all == a + b;
    assert t[pos..pos + |a|] == all[..|a|] == a;
    assert t[pos + |a|..pos + |a| + |b|] == all[|a|..] == b;
  }

  /** The row at `end`, if any, belongs under a node before `pos`, other than `parent`. */
  predicate Closes(t: seq<NodeMeta>, end: nat, pos: nat, parent: nat)
  {
    end <= |t|
    && (end < |t| ==> t[end].parentId.None? || (t[end].parentId.value < pos && t[end].parentId.value != parent))
  }

  lemma ReadNothing(t: seq<NodeMeta>, pos: nat, parent: nat)
    requires Closes(t, pos, pos, parent)
    ensures Read(t, pos, parent) == ([], pos)
  {
  }

  /** The rows of `experts` stand in the table from `pos` on, and nothing after them is a further sibling. */
  predicate Placed(t: seq<NodeMeta>, pos: nat, experts: seq<Expert>, parent: Parent, rootLevel: bool)
  {
    var rows := Blocks(experts, pos, parent, rootLevel);
    parent.id < pos && Holds(t, pos, rows) && Closes(t, pos + |rows|, pos, parent.id)
  }

  function EndOf(pos: nat, experts: seq<Expert>, parent: Parent, rootLevel: bool): nat
  {
    pos + |Blocks(experts, pos, parent, rootLevel)|
  }

  ghost predicate ReadsBack(t: seq<NodeMeta>, pos: nat, experts: seq<Expert>, parent: Parent, rootLevel: bool)
  {
    pos <= |t| && Read(t, pos, parent.id) == (Outlines(experts), EndOf(pos, experts, parent, rootLevel))
  }

  lemma {:induction false} ReadOfBlocks(t: seq<NodeMeta>, pos: nat, experts: seq<Expert>, parent: Parent,
                                        rootLevel: bool)
    requires Placed(t, pos, experts, parent, rootLevel)
    ensures ReadsBack(t, pos, experts, parent, rootLevel)
    decreases experts, 0
  {
    hide *;
    if experts == [] {
      ReadNoExperts(t, pos, parent, rootLevel);
    } else {
      var next := pos + |Block(experts[0], pos, parent, rootLevel)|;
      RestPlaced(t, pos, experts, parent, rootLevel);
      ReadNested(t, pos, experts[0], parent, rootLevel);
      ReadOfBlocks(t, next, experts[1..], parent, rootLevel);
      ReadStep(t, experts, pos, parent, rootLevel, next);
    }
  }

  lemma ReadNoExperts(t: seq<NodeMeta>, pos: nat, parent: Parent, rootLevel: bool)
    requires Placed(t, pos, [], parent, rootLevel)
    ensures ReadsBack(t, pos, [], parent, rootLevel)
  {
    ReadNothing(t, pos, parent.id);
  }

  ghost predicate NestedReadBack(t: seq<NodeMeta>, pos: nat, e: Expert, parent: Parent, rootLevel: bool)
  {
    && pos < |t| && t[pos] == Meta(e, pos, parent, rootLevel)
    && Read(t, pos + 1, pos)
       == (if e.backend.Mixture? then Outlines(e.backend.experts) else [], pos + |Block(e, pos, parent, rootLevel)|)
  }

  /** One expert's own row and nested rows stand at `pos`. */
  predicate PlacedOne(t: seq<NodeMeta>, pos: nat, e: Expert, parent: Parent, rootLevel: bool)
  {
    var rows := Block(e, pos, parent, rootLevel);
    Holds(t, pos, rows) && Closes(t, pos + |rows|, pos + 1, pos)
  }

  lemma {:induction false} ReadNested(t: seq<NodeMeta>, pos: nat, e: Expert, parent: Parent, rootLevel: bool)
    requires PlacedOne(t, pos, e, parent, rootLevel)
    ensures NestedReadBack(t, pos, e, parent, rootLevel)
    decreases e, 1
  {
    BlockOf(e, pos, parent, rootLevel);
    hide Block, Blocks, Read, Outlines, Meta, Closes, Holds, AsParent;
    var meta := Meta(e, pos, parent, rootLevel);
    if e.backend.Mixture? {
      HoldsParts(t, pos, [meta], Blocks(e.backend.experts, pos + 1, AsParent(meta), false));
      HoldsRow(t, pos, meta);
      ReadOfBlocks(t, pos + 1, e.backend.experts, AsParent(meta), false);
    } else {
      HoldsRow(t, pos, meta);
      ReadNothing(t, pos + 1, pos);
    }
  }

  /** What the first of several experts leaves to read: its own and nested rows, and its siblings' rows. */
  lemma RestPlaced(t: seq<NodeMeta>, pos: nat, experts: seq<Expert>, parent: Parent, rootLevel: bool)
    requires experts != [] && Placed(t, pos, experts, parent, rootLevel)
    ensures PlacedOne(t, pos, experts[0], parent, rootLevel)
    ensures var next := pos + |Block(experts[0], pos, parent, rootLevel)|;
            && Placed(t, next, experts[1..], parent, rootLevel)
            && EndOf(next, experts[1..], parent, rootLevel) == EndOf(pos, experts, parent, rootLevel)
  {
    hide Blocks, Block, Holds, Closes;
    var first := Block(experts[0], pos, parent, rootLevel);
    BlocksStep(experts, pos, parent, rootLevel);
    RowsPlaced(t, pos, first, Blocks(experts[1..], pos + |first|, parent, rootLevel),
               Blocks(experts, pos, parent, rootLevel), parent.id);
    NestedCloses(t, experts[1..], pos, pos + |first|, parent, rootLevel);
  }

  lemma RowsPlaced(t: seq<NodeMeta>, pos: nat, first: seq<NodeMeta>, rest: seq<NodeMeta>, rows: seq<NodeMeta>,
                   parent: nat)
    requires rows == first + rest
    requires Holds(t, pos, rows) && Closes(t, pos + |rows|, pos, parent)
    ensures Holds(t, pos, first) && Holds(t, pos + |first|, rest)
    ensures Closes(t, pos + |first| + |rest|, pos, parent) && Closes(t, pos + |first| + |rest|, pos + |first|, parent)
    ensures |rows| == |first| + |rest|
  {
    HoldsParts(t, pos, first, rest);
  }

  lemma HoldsRow(t: seq<NodeMeta>, pos: nat, row: NodeMeta)
    requires Holds(t, pos, [row])
    ensures pos < |t| && t[pos] == row
  {
    assert t[pos..pos + 1][0] == row;
  }

  lemma BlocksStep(experts: seq<Expert>, id: nat, parent: Parent, rootLevel: bool)
    requires experts != []
    ensures var first := Block(experts[0], id, parent, rootLevel);
            Blocks(experts, id, parent, rootLevel) == first + Blocks(experts[1..], id + |first|, parent, rootLevel)
  {
    hide Block;
  }

  lemma FirstRow(experts: seq<Expert>, id: nat, parent: Parent, rootLevel: bool)
    requires experts != []
    ensures var rows := Blocks(experts, id, parent, rootLevel);
            rows != [] && rows[0].parentId == Some(parent.id)
  {
    hide Blocks, Block;
    BlockOf(experts[0], id, parent, rootLevel);
    BlocksStep(experts, id, parent, rootLevel);
  }

  /** A node's nested rows end where a sibling starts, or where the sibling list itself ends. */
  lemma NestedCloses(t: seq<NodeMeta>, siblings: seq<Expert>, pos: nat, next: nat, parent: Parent, rootLevel: bool)
    requires parent.id < pos < next
    requires var rows := Blocks(siblings, next, parent, rootLevel);
             Holds(t, next, rows) && Closes(t, next + |rows|, pos, parent.id)
    ensures Closes(t, next, pos + 1, pos)
  {
    if siblings != [] {
      FirstRow(siblings, next, parent, rootLevel);
      hide Blocks;
      HoldsHead(t, next, Blocks(siblings, next, parent, rootLevel));
    }
  }

  lemma HoldsHead(t: seq<NodeMeta>, pos: nat, rows: seq<NodeMeta>)
    requires Holds(t, pos, rows) && rows != []
    ensures pos < |t| && t[pos] == rows[0]
  {
    assert t[pos..pos + |rows|][0] == t[pos];
  }

  lemma ReadStep(t: seq<NodeMeta>, experts: seq<Expert>, pos: nat, parent: Parent, rootLevel: bool, next: nat)
    requires experts != [] && next == pos + |Block(experts[0], pos, parent, rootLevel)|
    requires NestedReadBack(t, pos, experts[0], parent, rootLevel)
    requires ReadsBack(t, next, experts[1..], parent, rootLevel)
    requires EndOf(next, experts[1..], parent, rootLevel) == EndOf(pos, experts, parent, rootLevel)
    ensures ReadsBack(t, pos, experts, parent, rootLevel)
  {
    hide Block, EndOf;
    assert Outlines(experts) == [OutlineOf(experts[0])] + Outlines(experts[1..]);
    assert Read(t, pos, parent.id).1 == Read(t, next, parent.id).1;
  }

  lemma PlacedAtRoot(root: Plan)
    requires root.Mixture?
    ensures Placed(Table(root), 1, root.experts, ROOT, true)
  {
    hide Blocks;
    var rows := Blocks(root.experts, 1, ROOT, true);
    assert Table(root)[1..1 + |rows|] == rows;
  }

  /** The whole nesting, with names and labels, is read back from the rows' parent ids. */
  lemma NestingIsRecoverable(root: Plan)
    requires root.Mixture?
    ensures Read(Table(root), 1, 0) == (Outlines(root.experts), |Table(root)|)
  {
    hide Blocks, Read, Outlines;
    PlacedAtRoot(root);
    ReadOfBlocks(Table(root), 1, root.experts, ROOT, true);
  }
}
