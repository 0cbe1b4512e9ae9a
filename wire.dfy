/** A minimal stand-in for the JSON data model that the source's tests run
    through: just enough to state what the tests decode and encode. Objects are
    maps from keys to values, so key order plays no part; structs are read
    from objects only, unknown keys are ignored and a missing key is a
    mismatch, as the derived deserializers do by default. */
module Wire {
  import opened Wrappers

  datatype Json =
    | JInt(n: int)
    | JStr(s: string)
    | JArr(items: seq<Json>)
    | JObj(fields: map<string, Json>)

  const I32_MIN: int := -0x8000_0000
  const I32_MAX: int := 0x7fff_ffff
  const I64_MIN: int := -0x8000_0000_0000_0000
  const I64_MAX: int := 0x7fff_ffff_ffff_ffff

  /** An integer field of a width whose range is `lo..hi`. */
  function ReadInt(j: Json, lo: int, hi: int): (r: Option<int>)
    ensures r.Some? <==> j.JInt? && lo <= j.n <= hi
    ensures r.Some? ==> r.value == j.n
  {
    if j.JInt? && lo <= j.n <= hi then Some(j.n) else None
  }

  function ReadI32(j: Json): Option<int>
  {
    ReadInt(j, I32_MIN, I32_MAX)
  }

  function ReadI64(j: Json): Option<int>
  {
    ReadInt(j, I64_MIN, I64_MAX)
  }

  function ReadString(j: Json): (r: Option<string>)
    ensures r.Some? <==> j.JStr?
    ensures r.Some? ==> r.value == j.s
  {
    if j.JStr? then Some(j.s) else None
  }

  /** The value under `key` of an object, read with `p`; a non-object or a
      missing key is a mismatch. */
  function Field<T>(j: Json, key: string, p: Json -> Option<T>): (r: Option<T>)
    ensures r.Some? ==> j.JObj? && key in j.fields && p(j.fields[key]) == r
  {
    if j.JObj? && key in j.fields then p(j.fields[key]) else None
  }

  /** Like Field, but a missing key yields `default` (`#[serde(default)]`). */
  function FieldOr<T>(j: Json, key: string, p: Json -> Option<T>, default: T): (r: Option<T>)
    ensures j.JObj? && key !in j.fields ==> r == Some(default)
    ensures j.JObj? && key in j.fields ==> r == p(j.fields[key])
    ensures !j.JObj? ==> r.None?
  {
    if !j.JObj? then None
    else if key in j.fields then p(j.fields[key])
    else Some(default)
  }

  /** Every element read with `p`; one rejected element rejects the list. */
  function ReadAll<T>(p: Json -> Option<T>, items: seq<Json>): (r: Option<seq<T>>)
    ensures r.Some? <==> forall i :: 0 <= i < |items| ==> p(items[i]).Some?
    ensures r.Some? ==> |r.value| == |items| &&
                        forall i :: 0 <= i < |items| ==> p(items[i]) == Some(r.value[i])
  {
    if items == [] then Some([])
    else
      match p(items[0])
      case None => None
      case Some(x) =>
        match ReadAll(p, items[1..])
        case None => None
        case Some(xs) => Some([x] + xs)
  }

  /** A `Vec<T>`: an array whose every element reads as a `T`. */
  function ReadSeq<T>(p: Json -> Option<T>, j: Json): Option<seq<T>>
  {
    if j.JArr? then ReadAll(p, j.items) else None
  }

  function WriteSeq<T>(e: T -> Json, xs: seq<T>): (j: Json)
    ensures j.JArr? && |j.items| == |xs|
    ensures forall i :: 0 <= i < |xs| ==> j.items[i] == e(xs[i])
  {
    JArr(seq(|xs|, i requires 0 <= i < |xs| => e(xs[i])))
  }

  /** A list written element by element reads back element by element. */
  lemma SeqReadsBack<T>(p: Json -> Option<T>, e: T -> Json, xs: seq<T>)
    requires forall i :: 0 <= i < |xs| ==> p(e(xs[i])) == Some(xs[i])
    ensures ReadSeq(p, WriteSeq(e, xs)) == Some(xs)
  {
    var j := WriteSeq(e, xs);
    var r := ReadAll(p, j.items);
    assert forall i :: 0 <= i < |xs| ==> p(j.items[i]) == Some(xs[i]);
    assert r.value == xs;
  }

  /** The decimal digits of a natural number, most significant first. */
  function NatDigits(n: nat): (s: string)
    ensures |s| > 0
    ensures forall i :: 0 <= i < |s| ==> '0' <= s[i] <= '9'
    ensures n < 10 <==> |s| == 1
  {
    var d := [(('0' as int) + n % 10) as char];
    if n < 10 then d else NatDigits(n / 10) + d
  }

  /** `to_string` of an integer: its decimal digits, with a leading minus sign
      when it is negative. */
  function Decimal(n: int): (s: string)
    ensures |s| > 0
    ensures (s[0] == '-') <==> n < 0
  {
    if n < 0 then "-" + NatDigits(-n) else NatDigits(n)
  }
}
