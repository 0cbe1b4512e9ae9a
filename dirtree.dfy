/** The directory records of the source's `test_complex`: the old version is a
    flat list of `Dir`, the current version a `DirNode` tree, and the upgrade
    `From<Vec<Dir>> for DirNode` hangs the list under a synthetic root. */
module DirTree {
  import opened Wrappers
  import opened Wire

  datatype Dir = Dir(id: int, name: string, path: string)

  datatype DirNode = DirNode(id: int, name: string, path: string, children: seq<DirNode>)

  /** `From<Dir> for DirNode`: the same record as a leaf. */
  function FromDir(d: Dir): DirNode
  {
    DirNode(d.id, d.name, d.path, [])
  }

  /** A node as the flat record it came from. */
  function AsDir(n: DirNode): Dir
  {
    Dir(n.id, n.name, n.path)
  }

  /** What `From<Vec<Dir>> for DirNode` returns: a root with id 0, name "root"
      and path "/", whose children are the list's records as leaves, in order. */
  function Rooted(dirs: seq<Dir>): (r: DirNode)
    ensures r.id == 0 && r.name == "root" && r.path == "/"
    ensures |r.children| == |dirs|
    ensures forall i :: 0 <= i < |dirs| ==>
              && AsDir(r.children[i]) == dirs[i]
              && r.children[i].children == []
  {
    DirNode(0, "root", "/", seq(|dirs|, i requires 0 <= i < |dirs| => FromDir(dirs[i])))
  }

  /** The records under a node, read back as a flat list. */
  function Flatten(n: DirNode): seq<Dir>
  {
    seq(|n.children|, i requires 0 <= i < |n.children| => AsDir(n.children[i]))
  }

  /** The upgrade loses nothing: flattening the new root gives the old list. */
  lemma FlattenRooted(dirs: seq<Dir>)
    ensures Flatten(Rooted(dirs)) == dirs
  {
  }

  /** `From<Vec<Dir>> for DirNode` as the source writes it: build an empty
      root, then extend its children with each converted record in turn. */
  method FromDirs(dirs: seq<Dir>) returns (root: DirNode)
    ensures root == Rooted(dirs)
  {
    root := DirNode(0, "root", "/", []);
    var i := 0;
    while i < |dirs|
      invariant 0 <= i <= |dirs|
      invariant root.id == 0 && root.name == "root" && root.path == "/"
      invariant |root.children| == i
      invariant forall k :: 0 <= k < i ==> root.children[k] == FromDir(dirs[k])
    {
      root := root.(children := root.children + [FromDir(dirs[i])]);
      i := i + 1;
    }
  }

  // Wire codecs, as the derived `Serialize`/`Deserialize` of the test's structs.

  function ReadDir(j: Json): Option<Dir>
  {
    match (Field(j, "id", ReadI64), Field(j, "name", ReadString), Field(j, "path", ReadString))
    case (Some(id), Some(name), Some(path)) => Some(Dir(id, name, path))
    case _ => None
  }

  function WriteDir(d: Dir): Json
  {
    JObj(map["id" := JInt(d.id), "name" := JStr(d.name), "path" := JStr(d.path)])
  }

  function ReadDirs(j: Json): Option<seq<Dir>>
  {
    ReadSeq(ReadDir, j)
  }

  function WriteDirs(dirs: seq<Dir>): Json
  {
    WriteSeq(WriteDir, dirs)
  }

  function ReadDirNode(j: Json): Option<DirNode>
    decreases j, 1
  {
    match j
    case JObj(m) =>
      if "id" in m && "name" in m && "path" in m && "children" in m then
        match (ReadI64(m["id"]), ReadString(m["name"]), ReadString(m["path"]), m["children"])
        case (Some(id), Some(name), Some(path), JArr(items)) =>
          (match ReadNodes(m["children"], items, 0)
           case Some(children) => Some(DirNode(id, name, path, children))
           case None => None)
        case _ => None
      else None
    case _ => None
  }

  /** The nodes `items[i..]` of the array `parent`. */
  function ReadNodes(parent: Json, items: seq<Json>, i: nat): (r: Option<seq<DirNode>>)
    requires parent == JArr(items) && i <= |items|
    ensures r.Some? ==> |r.value| == |items| - i
    decreases parent, 0, |items| - i
  {
    if i == |items| then Some([])
    else
      match (ReadDirNode(items[i]), ReadNodes(parent, items, i + 1))
      case (Some(n), Some(ns)) => Some([n] + ns)
      case _ => None
  }

  function WriteDirNode(n: DirNode): Json
  {
    JObj(map["id" := JInt(n.id), "name" := JStr(n.name), "path" := JStr(n.path),
             "children" := JArr(seq(|n.children|, i requires 0 <= i < |n.children| => WriteDirNode(n.children[i])))])
  }

  /** Every id in the tree fits the source's `i64`. */
  ghost predicate IdsFit(n: DirNode)
  {
    && I64_MIN <= n.id <= I64_MAX
    && forall i :: 0 <= i < |n.children| ==> IdsFit(n.children[i])
  }

  /** A tree whose ids fit `i64` reads back from what it writes. */
  lemma {:induction false} DirNodeReadsBack(n: DirNode)
    requires IdsFit(n)
    ensures ReadDirNode(WriteDirNode(n)) == Some(n)
    decreases n, 1
  {
    var items := seq(|n.children|, i requires 0 <= i < |n.children| => WriteDirNode(n.children[i]));
    NodesReadBack(n, items, 0);
    assert n.children[0..] == n.children;
  }

  lemma {:induction false} NodesReadBack(n: DirNode, items: seq<Json>, i: nat)
    requires IdsFit(n) && i <= |n.children|
    requires items == seq(|n.children|, k requires 0 <= k < |n.children| => WriteDirNode(n.children[k]))
    ensures ReadNodes(JArr(items), items, i) == Some(n.children[i..])
    decreases n, 0, |n.children| - i
  {
    if i < |n.children| {
      DirNodeReadsBack(n.children[i]);
      NodesReadBack(n, items, i + 1);
      assert n.children[i..] == [n.children[i]] + n.children[i + 1..];
    }
  }

  /** A written tree is an object, which the old list decoder rejects: after
      migration the data no longer matches the old shape. */
  lemma DirNodeNotDirs(n: DirNode)
    ensures ReadDirs(WriteDirNode(n)).None?
  {
  }
}
