/** The values that the archive stores: rows, pages, tree references, commit manifests, and the
codec through which they become bytes. */
module Model {
  import opened Wrappers
  import opened Text
  import opened Orders

  // ---- Rows (store.py) ----

  /** A JSON value; what is not a string, an integer or a boolean is its canonical text. */
  datatype Json = JString(text: string) | JInt(number: int) | JBool(truth: bool) | JOther(json: string)

  type Properties = map<string, Json>

  datatype Row =
    | NodeRow(nodeLabel: string, name: string, filePath: string, startLine: int, endLine: int, properties: Properties)
    | EdgeRow(properties: Properties)
    | CoverageRow(detail: string)

  /** One name for a node, (source, target, type, local name) for an edge, (path, kind) for coverage. */
  type Key = seq<string>

  datatype Tree = Nodes | Edges | Coverage

  const INT32_MIN := -0x8000_0000
  const INT32_MAX := 0x7fff_ffff

  predicate Exact(text: string) { '\0' !in text }

  predicate ValidNode(key: Key, row: Row) {
    && |key| == 1 && key[0] != "" && Exact(key[0])
    && row.NodeRow? && row.nodeLabel != ""
    && Exact(row.nodeLabel) && Exact(row.name) && Exact(row.filePath)
    && INT32_MIN <= row.startLine <= INT32_MAX && INT32_MIN <= row.endLine <= INT32_MAX
  }

  function ExpectedLocal(edgeType: string, properties: Properties): Option<string> {
    if edgeType != "IMPORTS" || "local_name" !in properties then Some("")
    else match properties["local_name"] case JString(text) => Some(text) case _ => None
  }

  predicate ValidEdge(key: Key, row: Row) {
    && |key| == 4 && Exact(key[0]) && Exact(key[1]) && Exact(key[2]) && Exact(key[3])
    && key[0] != "" && key[1] != "" && key[2] != ""
    && row.EdgeRow? && ExpectedLocal(key[2], row.properties) == Some(key[3])
  }

  predicate ValidCoverage(key: Key, row: Row) {
    |key| == 2 && Exact(key[0]) && Exact(key[1]) && row.CoverageRow? && Exact(row.detail)
  }

  predicate ValidRow(tree: Tree, key: Key, row: Row) {
    match tree
    case Nodes => ValidNode(key, row)
    case Edges => ValidEdge(key, row)
    case Coverage => ValidCoverage(key, row)
  }

  type Rows = map<Key, Row>

  ghost predicate ValidRowsOf(tree: Tree, rows: Rows) {
    forall key :: key in rows ==> ValidRow(tree, key, rows[key])
  }

  /** validate_rows: the project root is present and every edge ends at stored nodes. */
  predicate ValidGraph(nodes: Rows, edges: Rows, project: string) {
    && project != "" && Exact(project)
    && [project] in nodes && nodes[[project]].NodeRow? && nodes[[project]].nodeLabel == "Project"
    && (forall key | key in nodes :: ValidNode(key, nodes[key]))
    && (forall key | key in edges :: ValidEdge(key, edges[key]) && [key[0]] in nodes && [key[1]] in nodes)
  }

  // ---- What validation refuses ----

  predicate HasNul(text: string) { exists i | 0 <= i < |text| :: text[i] == '\0' }

  ghost predicate NodeIsRefused(key: Key, row: Row) {
    || |key| != 1 || |key[0]| == 0 || HasNul(key[0]) || !row.NodeRow?
    || |row.nodeLabel| == 0 || HasNul(row.nodeLabel) || HasNul(row.name) || HasNul(row.filePath)
    || row.startLine < -2147483648 || row.startLine > 2147483647
    || row.endLine < -2147483648 || row.endLine > 2147483647
  }

  /** The local name is that of an import, where the properties give one, and empty otherwise. */
  ghost predicate EdgeIsRefused(key: Key, row: Row) {
    || |key| != 4 || (exists i :: 0 <= i < 4 && HasNul(key[i]))
    || |key[0]| == 0 || |key[1]| == 0 || |key[2]| == 0 || !row.EdgeRow?
    || (if key[2] == "IMPORTS" && "local_name" in row.properties then row.properties["local_name"] != JString(key[3])
        else |key[3]| > 0)
  }

  /** A graph is refused exactly for its project, its project root, a node, an edge, or a missing endpoint. */
  lemma GraphIsRefusedExactly(nodes: Rows, edges: Rows, project: string)
    ensures !ValidGraph(nodes, edges, project) <==>
      || |project| == 0 || HasNul(project)
      || [project] !in nodes || !nodes[[project]].NodeRow? || nodes[[project]].nodeLabel != "Project"
      || (exists key :: key in nodes && NodeIsRefused(key, nodes[key]))
      || (exists key :: key in edges && (EdgeIsRefused(key, edges[key]) || [key[0]] !in nodes || [key[1]] !in nodes))
  {
    forall key, row ensures NodeIsRefused(key, row) <==> !ValidNode(key, row) {
    }
    forall key, row ensures EdgeIsRefused(key, row) <==> !ValidEdge(key, row) {
    }
  }

  // ---- Coverage metadata ----

  type CoverageMetadata = map<string, Json>

  predicate TextField(metadata: CoverageMetadata, name: string) {
    name in metadata && metadata[name].JString? && Exact(metadata[name].text)
  }

  predicate CountField(metadata: CoverageMetadata, name: string, least: int) {
    name in metadata && metadata[name].JInt? && metadata[name].number >= least
  }

  /** The metadata half of validate_coverage. */
  predicate ValidMetadata(metadata: CoverageMetadata, project: string) {
    && TextField(metadata, "project") && TextField(metadata, "generation") && TextField(metadata, "index_mode")
    && TextField(metadata, "recorded_at") && TextField(metadata, "recording_status")
    && metadata["project"].text == project
    && CountField(metadata, "ignored_files_stored", 0) && CountField(metadata, "ignored_files_total", 0)
    && CountField(metadata, "coverage_version", 1)
    && "hash_records_complete" in metadata && metadata["hash_records_complete"].JBool?
  }

  /** validate_coverage */
  predicate ValidCoverageSnapshot(rows: Rows, metadata: CoverageMetadata, project: string) {
    ValidMetadata(metadata, project) && forall key | key in rows :: ValidCoverage(key, rows[key])
  }

  predicate TextIsRefused(metadata: CoverageMetadata, name: string) {
    name !in metadata || !metadata[name].JString? || HasNul(metadata[name].text)
  }

  predicate CountIsRefused(metadata: CoverageMetadata, name: string) {
    name !in metadata || !metadata[name].JInt? || metadata[name].number < 0
  }

  /** Coverage metadata is refused exactly for a text, another project, a count, a version 0, or the flag. */
  lemma MetadataIsRefusedExactly(metadata: CoverageMetadata, project: string)
    ensures !ValidMetadata(metadata, project) <==>
      || TextIsRefused(metadata, "project") || metadata["project"].text != project
      || TextIsRefused(metadata, "generation") || TextIsRefused(metadata, "index_mode")
      || TextIsRefused(metadata, "recorded_at") || TextIsRefused(metadata, "recording_status")
      || CountIsRefused(metadata, "ignored_files_stored") || CountIsRefused(metadata, "ignored_files_total")
      || CountIsRefused(metadata, "coverage_version") || metadata["coverage_version"].number == 0
      || "hash_records_complete" !in metadata || !metadata["hash_records_complete"].JBool?
  {
    forall name ensures TextIsRefused(metadata, name) <==> !TextField(metadata, name) {
    }
    hide TextIsRefused, TextField;
  }

  /** A coverage snapshot is refused exactly for its metadata or a row. */
  lemma CoverageIsRefusedExactly(rows: Rows, metadata: CoverageMetadata, project: string)
    ensures !ValidCoverageSnapshot(rows, metadata, project) <==>
      || !ValidMetadata(metadata, project)
      || exists key :: key in rows && (|key| != 2 || HasNul(key[0]) || HasNul(key[1])
           || !rows[key].CoverageRow? || HasNul(rows[key].detail))
  {
    hide ValidMetadata;
  }

  /** A row written (Some) or deleted (None). */
  type Changes = map<Key, Option<Row>>

  // ---- Pages (archive.py) ----

  type Hash = string

  datatype TreeRef = TreeRef(offset: nat, logicalHash: Hash, count: nat)

  datatype Page =
    | Leaf(tree: Tree, depth: nat, entries: seq<(Key, Row)>, logicalHash: Hash, count: nat)
    | Branch(tree: Tree, depth: nat, children: seq<(string, TreeRef)>, logicalHash: Hash, count: nat)

  /** What is hashed: a page without the offsets of its children. */
  datatype Logical =
    | LogicalLeaf(tree: Tree, depth: nat, count: nat, entries: seq<(Key, Row)>)
    | LogicalBranch(tree: Tree, depth: nat, count: nat, children: seq<(string, Hash, nat)>)

  datatype CoverageFields = CoverageFields(
    root: Option<TreeRef>, rows: nat, metadata: CoverageMetadata, digest: Hash, materialization: Hash)

  datatype Manifest = Manifest(
    ordinal: nat, sha: string, project: string,
    nodeRoot: Option<TreeRef>, edgeRoot: Option<TreeRef>, graphDigest: Hash,
    coverage: Option<CoverageFields>, provenance: string)

  // ---- Codec ----

  /** zlib, CRC-32, SHA-256 and JSON as functions; `Sound` states what is assumed of them. */
  datatype Codec = Codec(
    hash: Logical -> Hash, graphHash: (Option<Hash>, Option<Hash>) -> Hash,
    coverageHash: (Option<Hash>, CoverageMetadata) -> Hash, materializationHash: (Hash, Hash) -> Hash,
    keyBytes: Key -> Bytes,
    encodePage: Page -> Bytes, decodePage: Bytes -> Option<Page>,
    encodeManifest: Manifest -> Bytes, decodeManifest: Bytes -> Option<Manifest>,
    encodeIndex: (seq<Manifest>, string) -> Bytes, decodeIndex: Bytes -> Option<seq<Manifest>>,
    compress: Bytes -> Bytes, decompress: Bytes -> Option<Bytes>,
    crc: Bytes -> nat, digest: Bytes -> Bytes)
  {
    /** Decoding undoes encoding; a compressed frame is never empty; checksums have their widths; JSON
    gives different keys different bytes. */
    ghost predicate Sound() {
      && (forall page :: decodePage(encodePage(page)) == Some(page))
      && (forall manifest :: decodeManifest(encodeManifest(manifest)) == Some(manifest))
      && (forall commits, metadata :: decodeIndex(encodeIndex(commits, metadata)) == Some(commits))
      && (forall raw :: decompress(compress(raw)) == Some(raw))
      && (forall raw :: compress(raw) != [] && IsBytes(compress(raw)))
      && (forall raw :: |digest(raw)| == 32 && IsBytes(digest(raw)))
      && (forall raw :: crc(raw) < 0x1_0000_0000)
      && Injective(keyBytes)
      && (forall logical :: IsHexDigest(hash(logical)))
    }
  }

  predicate IsHexDigest(text: string) {
    |text| == 64 && forall i | 0 <= i < 64 :: '0' <= text[i] <= '9' || 'a' <= text[i] <= 'f'
  }

  /** A text is no digest exactly when its length or one of its characters is wrong. */
  lemma DigestIsRefusedExactly(text: string)
    ensures !IsHexDigest(text) <==> |text| != 64 || exists i :: 0 <= i < |text| && text[i] !in "0123456789abcdef"
  {
    forall c: char ensures c in "0123456789abcdef" <==> '0' <= c <= '9' || 'a' <= c <= 'f' {
      HexDigits(c);
    }
  }

  lemma HexDigits(c: char)
    ensures c in "0123456789abcdef" <==> '0' <= c <= '9' || 'a' <= c <= 'f'
  {
    assert "0123456789abcdef" == "01234567" + "89abcdef";
  }

  ghost predicate IsBytes(s: Bytes) {
    forall i :: 0 <= i < |s| ==> s[i] < 256
  }
}
