/** Trace columns: the header and rows the diagnostics write, and the columns the reader looks up by name. */
module TraceSchema {
  import opened Tsv
  import opened Flatten
  import opened TraceLines

  /** The columns before those of the nodes. */
  const FIXED_COLUMNS: seq<string> := [
    "t", "byte_u8", "byte_hex", "mix_prob", "mix_bits", "root_weight_entropy_bits", "root_top1_id",
    "root_top1_weight", "root_top2_id", "root_top2_weight", "root_top12_margin", "root_top1_switched",
    "oracle_best_id", "oracle_best_bits", "oracle_regret_bits", "oracle_best_switched"]

  /** What the four columns of a node end in. */
  const SUFFIXES: seq<string> := ["__prob", "__bits", "__local_weight", "__effective_weight"]

  function NodeColumn(id: nat, part: nat): string
    requires part < 4
  {
    "n" + Decimal(id) + SUFFIXES[part]
  }

  /** The header that is written for nodes `ids`. */
  function Header(ids: seq<nat>): (r: seq<string>)
    ensures |r| == 16 + 4 * |ids|
  {
    seq(16 + 4 * |ids|, i requires 0 <= i < 16 + 4 * |ids| =>
      if i < 16 then FIXED_COLUMNS[i] else NodeColumn(ids[(i - 16) / 4], (i - 16) % 4))
  }

  /** The texts of a row: the fixed ones, then four per node. */
  function RowTexts(fixed: seq<string>, nodes: seq<seq<string>>): (r: seq<string>)
    requires |fixed| == 16 && forall k :: 0 <= k < |nodes| ==> |nodes[k]| == 4
    ensures |r| == 16 + 4 * |nodes|
  {
    seq(16 + 4 * |nodes|, i requires 0 <= i < 16 + 4 * |nodes| =>
      if i < 16 then fixed[i] else nodes[(i - 16) / 4][(i - 16) % 4])
  }

  /** The header, pushed column by column. */
  method WriteHeader(ids: seq<nat>) returns (header: seq<string>)
    ensures header == Header(ids)
  {
    header := FIXED_COLUMNS;
    for k := 0 to |ids|
      invariant header == Header(ids[..k])
    {
      HeaderGrows(ids, k);
      header := header + ["n" + Decimal(ids[k]) + "__prob"];
      header := header + ["n" + Decimal(ids[k]) + "__bits"];
      header := header + ["n" + Decimal(ids[k]) + "__local_weight"];
      header := header + ["n" + Decimal(ids[k]) + "__effective_weight"];
    }
    assert ids[..|ids|] == ids;
  }

  lemma HeaderGrows(ids: seq<nat>, k: nat)
    requires k < |ids|
    ensures Header(ids[..k + 1])
         == Header(ids[..k]) + [NodeColumn(ids[k], 0)] + [NodeColumn(ids[k], 1)]
            + [NodeColumn(ids[k], 2)] + [NodeColumn(ids[k], 3)]
  {
    hide NodeColumn;
    var longer := Header(ids[..k + 1]);
    assert longer[..16 + 4 * k] == Header(ids[..k]);
    assert longer == longer[..16 + 4 * k] + longer[16 + 4 * k..];
    assert longer[16 + 4 * k..]
        == [NodeColumn(ids[k], 0), NodeColumn(ids[k], 1), NodeColumn(ids[k], 2), NodeColumn(ids[k], 3)];
  }

  // ---------- Looking columns up ----------

  /** The last column of that name, as inserting the columns into a map in order leaves it. */
  function ColumnOf(fields: seq<string>, name: string): (r: Option<nat>)
    ensures r.Some? ==> r.value < |fields| && fields[r.value] == name
  {
    if fields == [] then None
    else if fields[|fields| - 1] == name then Some(|fields| - 1)
    else ColumnOf(fields[..|fields| - 1], name)
  }

  /** Where a node's figures are. */
  datatype NodeFields = NodeFields(bits: nat, localWeight: nat, effectiveWeight: nat)

  datatype Columns = Columns(
    byteU8: nat, mixBits: nat, rootWeightEntropyBits: nat, rootTop12Margin: nat, oracleBestId: nat,
    oracleBestBits: nat, oracleRegretBits: nat, nodeColumns: seq<NodeFields>)

  function Require(fields: seq<string>, name: string): Outcome<nat>
  {
    match ColumnOf(fields, name)
    case None => Err("trace header missing " + name)
    case Some(i) => Ok(i)
  }

  function NodeFieldsOf(fields: seq<string>, id: nat): Outcome<NodeFields>
  {
    match Require(fields, NodeColumn(id, 1))
    case Err(e) => Err(e)
    case Ok(bits) =>
      match Require(fields, NodeColumn(id, 2))
      case Err(e) => Err(e)
      case Ok(localWeight) =>
        match Require(fields, NodeColumn(id, 3))
        case Err(e) => Err(e)
        case Ok(effectiveWeight) => Ok(NodeFields(bits, localWeight, effectiveWeight))
  }

  function AllNodeFields(fields: seq<string>, ids: seq<nat>): Outcome<seq<NodeFields>>
  {
    if ids == [] then Ok([])
    else
      match AllNodeFields(fields, ids[..|ids| - 1])
      case Err(e) => Err(e)
      case Ok(before) =>
        match NodeFieldsOf(fields, ids[|ids| - 1])
        case Err(e) => Err(e)
        case Ok(last) => Ok(before + [last])
  }

  /** `build_trace_schema`: the nodes' columns first, then the fixed ones; the first missing column fails. */
  function BuildSchema(fields: seq<string>, ids: seq<nat>): Outcome<Columns>
  {
    match AllNodeFields(fields, ids)
    case Err(e) => Err(e)
    case Ok(nodes) =>
      match Require(fields, "byte_u8")
      case Err(e) => Err(e)
      case Ok(byteU8) =>
        match Require(fields, "mix_bits")
        case Err(e) => Err(e)
        case Ok(mixBits) =>
          match Require(fields, "root_weight_entropy_bits")
          case Err(e) => Err(e)
          case Ok(entropy) =>
            match Require(fields, "root_top12_margin")
            case Err(e) => Err(e)
            case Ok(margin) =>
              match Require(fields, "oracle_best_id")
              case Err(e) => Err(e)
              case Ok(bestId) =>
                match Require(fields, "oracle_best_bits")
                case Err(e) => Err(e)
                case Ok(bestBits) =>
                  match Require(fields, "oracle_regret_bits")
                  case Err(e) => Err(e)
                  case Ok(regret) => Ok(Columns(byteU8, mixBits, entropy, margin, bestId, bestBits, regret, nodes))
  }

  /** The map from column names to positions, filled in order. */
  method HeaderMap(fields: seq<string>) returns (header: map<string, nat>)
    ensures forall name :: ColumnOf(fields, name) == if name in header then Some(header[name]) else None
  {
    header := map[];
    for i := 0 to |fields|
      invariant forall name :: ColumnOf(fields[..i], name) == if name in header then Some(header[name]) else None
    {
      assert fields[..i + 1][..i] == fields[..i];
      header := header[fields[i] := i];
    }
    assert fields[..|fields|] == fields;
  }

  // ---------- Column names are distinct ----------

  predicate Digits(s: string)
  {
    forall i :: 0 <= i < |s| ==> '0' <= s[i] <= '9'
  }

  /** The number a decimal text denotes. */
  function DecimalValue(s: string): nat
    requires Digits(s)
  {
    if s == "" then 0 else 10 * DecimalValue(s[..|s| - 1]) + (s[|s| - 1] as nat - '0' as nat)
  }

  lemma {:induction false} DecimalRoundTrip(n: nat)
    ensures Digits(Decimal(n)) && DecimalValue(Decimal(n)) == n
  {
    if n >= 10 {
      DecimalRoundTrip(n / 10);
      assert Decimal(n)[..|Decimal(n)| - 1] == Decimal(n / 10);
    } else {
      assert Decimal(n)[..0] == "";
    }
  }

  lemma DigitsBefore(d: string, s: string, d': string, s': string)
    requires Digits(d') && s != "" && s[0] == '_' && d + s == d' + s'
    ensures |d'| <= |d|
  {
    assert forall i :: 0 <= i < |d'| ==> '0' <= (d' + s')[i] <= '9';
    assert (d + s)[|d|] == '_';
  }

  /** A text of digits followed by an underscore splits in one way only. */
  lemma SplitsAtUnderscore(d: string, s: string, d': string, s': string)
    requires Digits(d) && Digits(d') && s != "" && s' != "" && s[0] == s'[0] == '_'
    requires d + s == d' + s'
    ensures d == d' && s == s'
  {
    DigitsBefore(d, s, d', s');
    DigitsBefore(d', s', d, s);
    assert (d + s)[..|d|] == d && (d + s)[|d|..] == s;
    assert (d' + s')[..|d'|] == d' && (d' + s')[|d'|..] == s';
  }

  lemma SuffixesDiffer(a: nat, b: nat)
    requires a < 4 && b < 4
    ensures SUFFIXES[a] != "" && SUFFIXES[a][0] == '_'
    ensures SUFFIXES[a] == SUFFIXES[b] ==> a == b
  {
    assert SUFFIXES[0][2] == 'p' && SUFFIXES[1][2] == 'b' && SUFFIXES[2][2] == 'l' && SUFFIXES[3][2] == 'e';
  }

  lemma NodeColumnTail(id: nat, part: nat)
    requires part < 4
    ensures NodeColumn(id, part) != "" && NodeColumn(id, part)[0] == 'n'
    ensures NodeColumn(id, part)[1..] == Decimal(id) + SUFFIXES[part]
  {
    hide Decimal;
    assert "n" + Decimal(id) + SUFFIXES[part] == "n" + (Decimal(id) + SUFFIXES[part]);
  }

  lemma NodeColumnsDiffer(id: nat, a: nat, id': nat, b: nat)
    requires a < 4 && b < 4 && NodeColumn(id, a) == NodeColumn(id', b)
    ensures id == id' && a == b
  {
    hide NodeColumn, Decimal, Digits, DecimalValue;
    DecimalRoundTrip(id);
    DecimalRoundTrip(id');
    NodeColumnTail(id, a);
    NodeColumnTail(id', b);
    SuffixesDiffer(a, b);
    SuffixesDiffer(b, a);
    hide SUFFIXES;
    SplitsAtUnderscore(Decimal(id), SUFFIXES[a], Decimal(id'), SUFFIXES[b]);
  }

  /** No fixed column starts like a node's. */
  lemma FixedStarts(i: nat)
    requires i < 16
    ensures FIXED_COLUMNS[i] != "" && FIXED_COLUMNS[i][0] != 'n'
  {
    var f := FIXED_COLUMNS;
    assert f[0][0] == 't' && f[1][0] == 'b' && f[2][0] == 'b' && f[3][0] == 'm' && f[4][0] == 'm';
    assert f[5][0] == 'r' && f[6][0] == 'r' && f[7][0] == 'r' && f[8][0] == 'r' && f[9][0] == 'r' && f[10][0] == 'r';
    assert f[11][0] == 'r' && f[12][0] == 'o' && f[13][0] == 'o' && f[14][0] == 'o' && f[15][0] == 'o';
  }

  predicate Distinct<T(==)>(s: seq<T>)
  {
    forall i, j :: 0 <= i < j < |s| ==> s[i] != s[j]
  }

  lemma FixedDiffer()
    ensures Distinct(FIXED_COLUMNS)
  {
    var f := FIXED_COLUMNS;
    assert |f[0]| == 1 && |f[1]| == 7 && |f[2]| == 8 && |f[3]| == 8 && |f[4]| == 8 && |f[5]| == 24 && |f[6]| == 12;
    assert |f[7]| == 16 && |f[8]| == 12 && |f[9]| == 16 && |f[10]| == 17 && |f[11]| == 18 && |f[12]| == 14;
    assert |f[13]| == 16 && |f[14]| == 18 && |f[15]| == 20;
    assert f[2][0] == 'b' && f[3][4] == 'p' && f[4][4] == 'b' && f[3][0] == f[4][0] == 'm';
    assert f[6][8] == '1' && f[8][8] == '2';
    assert f[7][8] == '1' && f[9][8] == '2' && f[13][0] == 'o' && f[7][0] == f[9][0] == 'r';
    assert f[11][0] == 'r' && f[14][0] == 'o';
  }

  /** No two columns of a header have the same name. */
  lemma HeaderDistinct(ids: seq<nat>)
    requires Distinct(ids)
    ensures Distinct(Header(ids))
  {
    hide NodeColumn;
    var h := Header(ids);
    FixedDiffer();
    forall i, j | 0 <= i < j < |h| ensures h[i] != h[j] {
      if i < 16 {
        FixedStarts(i);
        if j >= 16 {
          NodeColumnTail(ids[(j - 16) / 4], (j - 16) % 4);
        }
      } else if h[i] == h[j] {
        NodeColumnsDiffer(ids[(i - 16) / 4], (i - 16) % 4, ids[(j - 16) / 4], (j - 16) % 4);
      }
    }
  }

  lemma {:induction false} ColumnOfDistinct(fields: seq<string>, i: nat)
    requires Distinct(fields) && i < |fields|
    ensures ColumnOf(fields, fields[i]) == Some(i)
  {
    if i < |fields| - 1 {
      ColumnOfDistinct(fields[..|fields| - 1], i);
    }
  }

  // ---------- The writer's header, read ----------

  /** The columns of node `k` of a written trace. */
  function WrittenNode(k: nat): NodeFields
  {
    NodeFields(16 + 4 * k + 1, 16 + 4 * k + 2, 16 + 4 * k + 3)
  }

  /** The schema of a written trace. */
  function WrittenSchema(n: nat): Columns
  {
    Columns(1, 4, 5, 10, 12, 13, 14, seq(n, k requires 0 <= k < n => WrittenNode(k)))
  }

  lemma HeaderAt(ids: seq<nat>, k: nat, part: nat)
    requires Distinct(ids) && k < |ids| && part < 4
    ensures Require(Header(ids), NodeColumn(ids[k], part)) == Ok(16 + 4 * k + part)
  {
    hide NodeColumn;
    HeaderDistinct(ids);
    assert Header(ids)[16 + 4 * k + part] == NodeColumn(ids[k], part);
    ColumnOfDistinct(Header(ids), 16 + 4 * k + part);
  }

  lemma {:induction false} NodeFieldsWritten(ids: seq<nat>, k: nat)
    requires Distinct(ids) && k <= |ids|
    ensures AllNodeFields(Header(ids), ids[..k]) == Ok(WrittenSchema(k).nodeColumns)
  {
    hide NodeColumn, Header, Require;
    if k == 0 {
      assert ids[..0] == [];
    } else {
      NodeFieldsWritten(ids, k - 1);
      assert ids[..k][..k - 1] == ids[..k - 1];
      HeaderAt(ids, k - 1, 1);
      HeaderAt(ids, k - 1, 2);
      HeaderAt(ids, k - 1, 3);
      assert WrittenSchema(k).nodeColumns == WrittenSchema(k - 1).nodeColumns + [WrittenNode(k - 1)];
    }
  }

  lemma FixedAt(ids: seq<nat>, i: nat)
    requires Distinct(ids) && i < 16
    ensures Require(Header(ids), FIXED_COLUMNS[i]) == Ok(i)
  {
    HeaderDistinct(ids);
    ColumnOfDistinct(Header(ids), i);
  }

  /** In a written header the reader finds every column it needs, and each node's own ones. */
  lemma SchemaOfHeader(ids: seq<nat>)
    requires Distinct(ids)
    ensures BuildSchema(Header(ids), ids) == Ok(WrittenSchema(|ids|))
  {
    hide Header, Require, AllNodeFields;
    assert ids[..|ids|] == ids;
    NodeFieldsWritten(ids, |ids|);
    FixedAt(ids, 1);
    FixedAt(ids, 4);
    FixedAt(ids, 5);
    FixedAt(ids, 10);
    FixedAt(ids, 12);
    FixedAt(ids, 13);
    FixedAt(ids, 14);
  }

  lemma ColumnsAreClean(ids: seq<nat>)
    ensures forall f <- Header(ids) :: Clean(f)
  {
    forall i | 0 <= i < |Header(ids)| ensures Clean(Header(ids)[i]) {
      if i < 16 {
        FixedIsClean(i);
      } else {
        NodeColumnIsClean(ids[(i - 16) / 4], (i - 16) % 4);
      }
    }
  }

  lemma FixedIsClean(i: nat)
    requires i < 16
    ensures Clean(FIXED_COLUMNS[i])
  {
    if i < 5 { EarlyIsClean(i); } else if i < 11 { RootIsClean(i); } else { LateIsClean(i); }
  }

  lemma EarlyIsClean(i: nat)
    requires i < 5
    ensures Clean(FIXED_COLUMNS[i])
  {
  }

  lemma RootIsClean(i: nat)
    requires 5 <= i < 11
    ensures Clean(FIXED_COLUMNS[i])
  {
  }

  lemma LateIsClean(i: nat)
    requires 11 <= i < 16
    ensures Clean(FIXED_COLUMNS[i])
  {
  }

  lemma SuffixIsClean(part: nat)
    requires part < 4
    ensures Clean(SUFFIXES[part])
  {
  }

  lemma NodeColumnIsClean(id: nat, part: nat)
    requires part < 4
    ensures Clean(NodeColumn(id, part))
  {
    DecimalRoundTrip(id);
    SuffixIsClean(part);
    hide Decimal, SUFFIXES, DecimalValue;
  }

  lemma TextsAreClean(fixed: seq<string>, nodes: seq<seq<string>>)
    requires |fixed| == 16 && (forall f <- fixed :: Clean(f))
    requires forall k :: 0 <= k < |nodes| ==> |nodes[k]| == 4 && forall f <- nodes[k] :: Clean(f)
    ensures forall f <- RowTexts(fixed, nodes) :: Clean(f)
  {
    hide Clean;
    var texts := RowTexts(fixed, nodes);
    forall i | 0 <= i < |texts| ensures Clean(texts[i]) {
      if i >= 16 {
        assert nodes[(i - 16) / 4][(i - 16) % 4] in nodes[(i - 16) / 4];
      }
    }
  }

  /** A header line that was written gives the reader the written columns, each node its own. */
  lemma WrittenHeaderReads(ids: seq<nat>)
    requires Distinct(ids)
    ensures BuildSchema(Split(Row(Header(ids))), ids) == Ok(WrittenSchema(|ids|))
  {
    hide Header, BuildSchema, Split, Row, Clean;
    ColumnsAreClean(ids);
    SplitOfRow(Header(ids));
    SchemaOfHeader(ids);
  }

  /** The fields at the written columns are these texts. */
  ghost predicate ReadsTexts(fields: seq<string>, fixed: seq<string>, nodes: seq<seq<string>>)
    requires |fixed| == 16 && forall k :: 0 <= k < |nodes| ==> |nodes[k]| == 4
  {
    var columns := WrittenSchema(|nodes|);
    && |fields| == 16 + 4 * |nodes|
    && fields[columns.byteU8] == fixed[1] && fields[columns.mixBits] == fixed[4]
    && fields[columns.rootWeightEntropyBits] == fixed[5] && fields[columns.rootTop12Margin] == fixed[10]
    && fields[columns.oracleBestId] == fixed[12] && fields[columns.oracleBestBits] == fixed[13]
    && fields[columns.oracleRegretBits] == fixed[14]
    && forall k :: 0 <= k < |nodes| ==> ReadsNode(fields, columns.nodeColumns[k], nodes[k])
  }

  predicate ReadsNode(fields: seq<string>, columns: NodeFields, texts: seq<string>)
    requires |texts| == 4
  {
    && columns.bits < |fields| && columns.localWeight < |fields| && columns.effectiveWeight < |fields|
    && fields[columns.bits] == texts[1] && fields[columns.localWeight] == texts[2]
    && fields[columns.effectiveWeight] == texts[3]
  }

  lemma NodeTextsAt(fixed: seq<string>, nodes: seq<seq<string>>, k: nat)
    requires |fixed| == 16 && forall k :: 0 <= k < |nodes| ==> |nodes[k]| == 4
    requires k < |nodes|
    ensures ReadsNode(RowTexts(fixed, nodes), WrittenNode(k), nodes[k])
  {
    assert (4 * k + 1) / 4 == k && (4 * k + 2) / 4 == k && (4 * k + 3) / 4 == k;
  }

  lemma TextsRead(fixed: seq<string>, nodes: seq<seq<string>>)
    requires |fixed| == 16 && forall k :: 0 <= k < |nodes| ==> |nodes[k]| == 4
    ensures ReadsTexts(RowTexts(fixed, nodes), fixed, nodes)
  {
    hide ReadsNode, WrittenNode;
    forall k | 0 <= k < |nodes| ensures ReadsNode(RowTexts(fixed, nodes), WrittenNode(k), nodes[k]) {
      NodeTextsAt(fixed, nodes, k);
    }
  }

  /** In every row of clean texts, the fields at the looked-up columns are the texts written for them. */
  lemma WrittenRowReads(fixed: seq<string>, nodes: seq<seq<string>>)
    requires |fixed| == 16 && (forall f <- fixed :: Clean(f))
    requires forall k :: 0 <= k < |nodes| ==> |nodes[k]| == 4 && forall f <- nodes[k] :: Clean(f)
    ensures ReadsTexts(Split(Row(RowTexts(fixed, nodes))), fixed, nodes)
  {
    hide Split, Row, Clean, RowTexts, ReadsTexts;
    TextsAreClean(fixed, nodes);
    SplitOfRow(RowTexts(fixed, nodes));
    TextsRead(fixed, nodes);
  }

  /** The reader and the writer agree on the nodes of any flattened mixture: ids 1 to n - 1 are distinct. */
  lemma FlattenedTraceReads(root: Plan)
    requires root.Mixture?
    ensures var ids := Ids(1, |Table(root)| - 1);
            BuildSchema(Split(Row(Header(ids))), ids) == Ok(WrittenSchema(|ids|))
  {
    WrittenHeaderReads(Ids(1, |Table(root)| - 1));
  }
}
