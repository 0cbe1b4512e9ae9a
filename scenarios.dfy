/** The source's tests, replayed on the wire stand-in: what each decodes, and
    what the adapter makes of it. */
module Scenarios {
  import opened Wrappers
  import Conversion
  import opened Compat
  import opened Wire
  import opened DirTree

  // test_simple: Old { a: i32 } upgraded to New { a: String, b: i32 }.

  datatype SimpleOld = SimpleOld(a: int)
  datatype SimpleNew = SimpleNew(a: string, b: int)

  function ReadSimpleOld(j: Json): Option<SimpleOld>
  {
    Field(j, "a", ReadI32).Map((a: int) => SimpleOld(a))
  }

  function WriteSimpleOld(o: SimpleOld): Json
  {
    JObj(map["a" := JInt(o.a)])
  }

  function ReadSimpleNew(j: Json): Option<SimpleNew>
  {
    match (Field(j, "a", ReadString), Field(j, "b", ReadI32))
    case (Some(a), Some(b)) => Some(SimpleNew(a, b))
    case _ => None
  }

  /** `impl From<Old> for New`: `a` as its decimal text, `b` set to 0. */
  function SimpleUpgrade(): Conversion.Upgrade<SimpleOld, SimpleNew>
  {
    Conversion.ViaFrom((o: SimpleOld) => SimpleNew(Decimal(o.a), 0))
  }

  /** Any `i32` old record comes out of the adapter as its text and 0. */
  lemma SimpleMigrates(n: int)
    requires I32_MIN <= n <= I32_MAX
    ensures Decode(SimpleUpgrade(), ReadSimpleOld, ReadSimpleNew, WriteSimpleOld(SimpleOld(n)))
            == Some(Compatible(Current(SimpleNew(Decimal(n), 0))))
  {
    OldUpgrade(SimpleUpgrade(), ReadSimpleOld, ReadSimpleNew, WriteSimpleOld, SimpleOld(n));
  }

  /** The test's own values: `{"a":1}` unwraps to `a == "1"`, `b == 0`. */
  lemma SimpleTest()
    ensures DeserializeWith(SimpleUpgrade(), ReadSimpleOld, ReadSimpleNew, WriteSimpleOld(SimpleOld(1)))
            == Some(SimpleNew("1", 0))
  {
    SimpleMigrates(1);
    assert Decimal(1) == "1";
  }

  // test_complex: the `dirs` field changes from Vec<Dir> to Compatible<Vec<Dir>, DirNode>.

  datatype ComplexOld = ComplexOld(dirs: seq<Dir>, root: Dir)
  datatype ComplexNew = ComplexNew(dirs: Compatible<seq<Dir>, DirNode>)

  function WriteComplexOld(o: ComplexOld): Json
  {
    JObj(map["dirs" := WriteDirs(o.dirs), "root" := WriteDir(o.root)])
  }

  function DirsUpgrade(): Conversion.Upgrade<seq<Dir>, DirNode>
  {
    Conversion.ViaFrom(Rooted)
  }

  function ReadComplexNew(j: Json): Option<ComplexNew>
  {
    Field(j, "dirs", Decoder(DirsUpgrade(), ReadDirs, ReadDirNode)).Map((d: Compatible<seq<Dir>, DirNode>) => ComplexNew(d))
  }

  function WriteComplexNew(n: ComplexNew): Json
  {
    JObj(map["dirs" := Encode(WriteDirs, WriteDirNode, n.dirs)])
  }

  /** Reading old data into the new record holds the rooted tree, whatever
      the old list was (ids within `i64`); the unknown `root` key is ignored. */
  lemma ComplexMigrates(o: ComplexOld)
    requires forall i :: 0 <= i < |o.dirs| ==> I64_MIN <= o.dirs[i].id <= I64_MAX
    ensures ReadComplexNew(WriteComplexOld(o)) == Some(ComplexNew(Compatible(Current(Rooted(o.dirs)))))
  {
    SeqReadsBack(ReadDir, WriteDir, o.dirs);
    OldUpgrade(DirsUpgrade(), ReadDirs, ReadDirNode, WriteDirs, o.dirs);
  }

  /** The test's values: two leaf records under the synthetic root, and the
      re-encoded record is the current shape with empty `children` lists. */
  lemma ComplexTest()
    ensures var o := ComplexOld([Dir(1, "a", "/a"), Dir(2, "b", "/b")], Dir(0, "root", "/"));
            var tree := DirNode(0, "root", "/", [DirNode(1, "a", "/a", []), DirNode(2, "b", "/b", [])]);
            && ReadComplexNew(WriteComplexOld(o)) == Some(ComplexNew(Compatible(Current(tree))))
            && WriteComplexNew(ComplexNew(Compatible(Current(tree)))) ==
               JObj(map["dirs" := JObj(map[
                 "id" := JInt(0), "name" := JStr("root"), "path" := JStr("/"),
                 "children" := JArr([
                   JObj(map["id" := JInt(1), "name" := JStr("a"), "path" := JStr("/a"), "children" := JArr([])]),
                   JObj(map["id" := JInt(2), "name" := JStr("b"), "path" := JStr("/b"), "children" := JArr([])])])])])
  {
    var o := ComplexOld([Dir(1, "a", "/a"), Dir(2, "b", "/b")], Dir(0, "root", "/"));
    ComplexMigrates(o);
    var tree := DirNode(0, "root", "/", [DirNode(1, "a", "/a", []), DirNode(2, "b", "/b", [])]);
    assert Rooted(o.dirs) == tree;
    var leaf1 := JObj(map["id" := JInt(1), "name" := JStr("a"), "path" := JStr("/a"), "children" := JArr([])]);
    var leaf2 := JObj(map["id" := JInt(2), "name" := JStr("b"), "path" := JStr("/b"), "children" := JArr([])]);
    NoChildrenWritten(tree.children[0]);
    NoChildrenWritten(tree.children[1]);
    assert seq(|tree.children|, i requires 0 <= i < |tree.children| => WriteDirNode(tree.children[i])) == [leaf1, leaf2];
    assert WriteDirNode(tree) == JObj(map["id" := JInt(0), "name" := JStr("root"), "path" := JStr("/"),
                                          "children" := JArr([leaf1, leaf2])]);
  }

  lemma NoChildrenWritten(n: DirNode)
    requires n.children == []
    ensures WriteDirNode(n) == JObj(map["id" := JInt(n.id), "name" := JStr(n.name), "path" := JStr(n.path),
                                        "children" := JArr([])])
  {
    var none := seq(|n.children|, i requires 0 <= i < |n.children| => WriteDirNode(n.children[i]));
    assert none == [];
  }

  /** The migrated record, written and read again, is the same record: the
      data has healed to the current shape. */
  lemma ComplexHeals(n: ComplexNew)
    requires n.dirs.HoldsCurrent() && IdsFit(n.dirs.alt.currentValue)
    ensures ReadComplexNew(WriteComplexNew(n)) == Some(n)
  {
    var t := n.dirs.alt.currentValue;
    DirNodeReadsBack(t);
    DirNodeNotDirs(t);
    assert Decoder(DirsUpgrade(), ReadDirs, ReadDirNode)(WriteDirNode(t)) == Some(Compatible(Current(t)));
  }

  // test_with: a field of type MyType read through the hook
  // `deserialize_with = "Compatible::<i32, MyType>::deserialize_with"`.

  /** `struct MyType(String)`: a newtype struct, read as the bare string. */
  datatype MyType = MyType(s: string)

  function ReadMyType(j: Json): Option<MyType>
  {
    ReadString(j).Map((s: string) => MyType(s))
  }

  /** `impl From<i32> for MyType`: the decimal text. */
  function MyTypeUpgrade(): Conversion.Upgrade<int, MyType>
  {
    Conversion.ViaFrom((n: int) => MyType(Decimal(n)))
  }

  datatype WithNew = WithNew(a: MyType)

  function ReadWithNew(j: Json): Option<WithNew>
  {
    Field(j, "a", (v: Json) => DeserializeWith(MyTypeUpgrade(), ReadI32, ReadMyType, v)).Map((m: MyType) => WithNew(m))
  }

  /** The record `{"a":1}` reads as `a == MyType("1")`, and a record already
      in the current shape `{"a":"1"}` reads the same. */
  lemma WithTest()
    ensures ReadWithNew(JObj(map["a" := JInt(1)])) == Some(WithNew(MyType("1")))
    ensures ReadWithNew(JObj(map["a" := JStr("1")])) == Some(WithNew(MyType("1")))
  {
    assert Decimal(1) == "1";
  }

  // test_collision: Old { a } against Current { a, b } with `#[serde(default)] b`.

  datatype NarrowOld = NarrowOld(a: int)
  datatype WideNew = WideNew(a: int, b: int)

  function ReadNarrowOld(j: Json): Option<NarrowOld>
  {
    Field(j, "a", ReadI32).Map((a: int) => NarrowOld(a))
  }

  function ReadWideNew(j: Json): Option<WideNew>
  {
    match (Field(j, "a", ReadI32), FieldOr(j, "b", ReadI32, 0))
    case (Some(a), Some(b)) => Some(WideNew(a, b))
    case _ => None
  }

  function WriteWideNew(c: WideNew): Json
  {
    JObj(map["a" := JInt(c.a), "b" := JInt(c.b)])
  }

  function WideUpgrade(): Conversion.Upgrade<NarrowOld, WideNew>
  {
    Conversion.ViaFrom((o: NarrowOld) => WideNew(o.a, 0))
  }

  /** The hazard: a current record with `b != 0`, which the current decoder
      reads back faithfully, comes out of the adapter with `b` reset to 0,
      because the narrower old shape also matches and is tried first. */
  lemma CollisionLosesField(a: int, b: int)
    requires I32_MIN <= a <= I32_MAX && I32_MIN <= b <= I32_MAX && b != 0
    ensures ReadWideNew(WriteWideNew(WideNew(a, b))) == Some(WideNew(a, b))
    ensures DeserializeWith(WideUpgrade(), ReadNarrowOld, ReadWideNew, WriteWideNew(WideNew(a, b)))
            == Some(WideNew(a, 0))
  {
    CollisionPrefersOld(WideUpgrade(), ReadNarrowOld, ReadWideNew, WriteWideNew, WideNew(a, b), NarrowOld(a));
  }

  // test_derived (tests/derive.rs): MyType declares
  // `#[serde(from = "Compatible::<i32, MyType>")]`, so its only decoder reads a
  // Compatible<i32, MyType> and converts it with the derived `From`.

  /** What a decoder that may not return yields within a depth bound:
      `Recursing` means the bound was reached with the decoder still calling
      itself on the same input. */
  datatype Outcome<T> = Done(result: Option<T>) | Recursing

  /** MyType's decoder as the test writes it. The `Current` branch of the
      inner `Alt` is MyType's own decoder, applied again to the same input;
      `depth` bounds how often it is re-entered. */
  function DerivedAsWritten(depth: nat, j: Json): Outcome<MyType>
    decreases depth
  {
    if depth == 0 then Recursing
    else
      match ReadI32(j)
      case Some(n) => Done(Some(DerivedFrom(MyTypeUpgrade(), Compatible(Old(n)).Normalized(MyTypeUpgrade()))))
      case None =>
        match DerivedAsWritten(depth - 1, j)
        case Done(Some(m)) => Done(Some(DerivedFrom(MyTypeUpgrade(), Compatible(Current(m)).Normalized(MyTypeUpgrade()))))
        case Done(None) => Done(None)
        case Recursing => Recursing
  }

  /** The test's input, an `i32`, is read as its decimal text. */
  lemma DerivedAsWrittenReadsInteger(depth: nat, n: int)
    requires depth > 0 && I32_MIN <= n <= I32_MAX
    ensures DerivedAsWritten(depth, JInt(n)) == Done(Some(MyType(Decimal(n))))
  {
  }

  /** Any input that is not an `i32`, MyType's own current shape included,
      never finishes decoding: however deep the bound, the decoder is still
      re-entering itself. */
  lemma {:induction false} DerivedAsWrittenRecurses(depth: nat, j: Json)
    requires ReadI32(j).None?
    ensures DerivedAsWritten(depth, j) == Recursing
    decreases depth
  {
    if depth > 0 {
      DerivedAsWrittenRecurses(depth - 1, j);
    }
  }

  /** The counterexample: the string `"1"`, which is how MyType itself is
      written, is never decoded. */
  lemma DerivedStringNeverDecodes(depth: nat)
    ensures DerivedAsWritten(depth, JStr("1")) == Recursing
  {
    DerivedAsWrittenRecurses(depth, JStr("1"));
  }

  /** MyType's decoder as intended: the same adapter, whose `Current` branch
      reads MyType's own newtype shape, a bare string. */
  function DerivedCorrected(j: Json): (r: Option<MyType>)
    ensures ReadI32(j).Some? ==> r == Some(MyType(Decimal(j.n)))
    ensures j.JStr? ==> r == Some(MyType(j.s))
    ensures r.None? <==> ReadI32(j).None? && !j.JStr?
  {
    Decode(MyTypeUpgrade(), ReadI32, ReadMyType, j).Map((x: Compatible<int, MyType>) => DerivedFrom(MyTypeUpgrade(), x))
  }

  /** With the corrected decoder, the test's record `{"a":1}` reads as
      `MyType("1")`, and so does a record already written in the current shape. */
  lemma DerivedTest()
    ensures Field(JObj(map["a" := JInt(1)]), "a", DerivedCorrected) == Some(MyType("1"))
    ensures Field(JObj(map["a" := JStr("1")]), "a", DerivedCorrected) == Some(MyType("1"))
  {
    assert DerivedCorrected(JInt(1)) == Some(MyType(Decimal(1)));
    assert Decimal(1) == "1";
  }
}
