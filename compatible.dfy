/** The versioned-compatibility adapter of src/lib.rs: the two-case value `Alt`,
    its wrapper `Compatible`, the decode rule (an untagged match that tries the
    old shape first and normalises to the current shape), the encode rule
    (re-emit whichever case is held, with no tag), and the field-level hook
    `deserialize_with`.

    The structural encode/decode engine is a parameter: a decoder of `T` from
    wire values `W` is a partial function `W -> Option<T>`, an encoder a total
    function `T -> W`. */
module Compat {
  import opened Wrappers
  import Conversion
  import Untagged

  /** `Alt<Old, Current>`: exactly one of the two versions, `Old` declared first. */
  datatype Alt<O, C> = Old(oldValue: O) | Current(currentValue: C)

  /** `Compatible<Old, Current>(Alt<Old, Current>)`. */
  datatype Compatible<O, C> = Compatible(alt: Alt<O, C>) {

    predicate HoldsCurrent()
    {
      alt.Current?
    }

    /** `into_current`: unwraps the adapter, converting a held old value. */
    function IntoCurrent(u: Conversion.Upgrade<O, C>): C
    {
      match alt
      case Old(o) => Conversion.IntoCurrent(u, o)
      case Current(c) => c
    }

    /** The value `make_current` returns: the adapter now holds the current
        version of what it held, and an adapter already holding `Current` is
        left as it is. */
    function Normalized(u: Conversion.Upgrade<O, C>): (r: Compatible<O, C>)
      ensures r == Compatible(Current(IntoCurrent(u)))
      ensures HoldsCurrent() ==> r == this
    {
      match alt
      case Old(o) => Compatible(Current(Conversion.IntoCurrent(u, o)))
      case Current(_) => this
    }

    /** `make_current(mut self) -> Self`: rebinds the held case in place when it
        is `Old`, then hands the adapter back. */
    method MakeCurrent(u: Conversion.Upgrade<O, C>) returns (r: Compatible<O, C>)
      ensures r.HoldsCurrent()
      ensures HoldsCurrent() ==> r == this
      ensures r.IntoCurrent(u) == IntoCurrent(u)
      ensures r == Normalized(u)
    {
      r := this;
      match r.alt {
        case Old(o) =>
          r := r.(alt := Current(Conversion.IntoCurrent(u, o)));
        case Current(_) =>
      }
    }
  }

  /** `into_current` hands back a held current value unchanged and upgrades a
      held old value with the conversion the user wrote. */
  lemma IntoCurrentCases<O, C>(x: Compatible<O, C>, u: Conversion.Upgrade<O, C>)
    ensures x.HoldsCurrent() ==> x.IntoCurrent(u) == x.alt.currentValue
    ensures x.alt.Old? ==> x.IntoCurrent(u) == u.UserConversion()(x.alt.oldValue)
  {
    if x.alt.Old? {
      Conversion.DerivationAgrees(u, x.alt.oldValue);
    }
  }

  /** Normalising twice is normalising once, and it never changes what
      `into_current` yields. */
  lemma NormalizedIdempotent<O, C>(x: Compatible<O, C>, u: Conversion.Upgrade<O, C>)
    ensures x.Normalized(u).Normalized(u) == x.Normalized(u)
    ensures x.Normalized(u).IntoCurrent(u) == x.IntoCurrent(u)
  {
  }

  /** The derived `Deserialize` of the untagged `Alt`: the `Old` variant is
      tried first, the `Current` variant second. */
  function DecodeAlt<W, O, C>(po: W -> Option<O>, pc: W -> Option<C>, w: W): Option<Alt<O, C>>
  {
    match po(w)
    case Some(o) => Some(Old(o))
    case None =>
      match pc(w)
      case Some(c) => Some(Current(c))
      case None => None
  }

  /** The candidate decoder for variant `Old`. */
  function OldCandidate<W, O, C>(po: W -> Option<O>): W -> Option<Alt<O, C>>
  {
    w => po(w).Map((o: O) => Alt<O, C>.Old(o))
  }

  /** The candidate decoder for variant `Current`. */
  function CurrentCandidate<W, O, C>(pc: W -> Option<C>): W -> Option<Alt<O, C>>
  {
    w => pc(w).Map((c: C) => Alt<O, C>.Current(c))
  }

  /** `Alt`'s decoder is the untagged first-match over its two variants in
      declaration order. */
  lemma DecodeAltIsFirstMatch<W, O, C>(po: W -> Option<O>, pc: W -> Option<C>, w: W)
    ensures DecodeAlt(po, pc, w) == Untagged.FirstMatch([OldCandidate(po), CurrentCandidate(pc)], w)
  {
    var cs: seq<W -> Option<Alt<O, C>>> := [OldCandidate(po), CurrentCandidate(pc)];
    assert cs[0](w) == po(w).Map((o: O) => Alt<O, C>.Old(o));
    if po(w).None? {
      assert cs[1..] == [CurrentCandidate(pc)];
      assert cs[1..][0](w) == pc(w).Map((c: C) => Alt<O, C>.Current(c));
      assert cs[1..][1..] == [];
      assert Untagged.FirstMatch(cs[1..][1..], w) == None;
      assert Untagged.FirstMatch(cs[1..], w) == DecodeAlt(po, pc, w);
    }
  }

  /** `Deserialize for Compatible`: decode the `Alt`, then `make_current`. */
  function Decode<W, O, C>(u: Conversion.Upgrade<O, C>, po: W -> Option<O>, pc: W -> Option<C>, w: W)
    : (r: Option<Compatible<O, C>>)
    ensures r.Some? ==> r.value.HoldsCurrent()
    ensures r.None? <==> po(w).None? && pc(w).None?
    ensures po(w).Some? ==> r == Some(Compatible(Current(Conversion.FromOld(u, po(w).value))))
    ensures po(w).None? && pc(w).Some? ==> r == Some(Compatible(Current(pc(w).value)))
  {
    match DecodeAlt(po, pc, w)
    case None => None
    case Some(alt) => Some(Compatible(alt).Normalized(u))
  }

  /** The adapter's decoder has the same shape as any other decoder, so it can
      stand in for the `Old` decoder of another adapter. */
  function Decoder<W, O, C>(u: Conversion.Upgrade<O, C>, po: W -> Option<O>, pc: W -> Option<C>)
    : W -> Option<Compatible<O, C>>
  {
    w => Decode(u, po, pc, w)
  }

  /** `Serialize for Compatible`: delegate to the held case, adding no tag. */
  function Encode<W, O, C>(eo: O -> W, ec: C -> W, x: Compatible<O, C>): W
  {
    match x.alt
    case Old(o) => eo(o)
    case Current(c) => ec(c)
  }

  /** The adapter's encoder, again of the same shape as any other encoder. */
  function Encoder<W, O, C>(eo: O -> W, ec: C -> W): Compatible<O, C> -> W
  {
    x => Encode(eo, ec, x)
  }

  /** `deserialize_with`, the field-level hook: decode the adapter and unwrap it. */
  function DeserializeWith<W, O, C>(u: Conversion.Upgrade<O, C>, po: W -> Option<O>, pc: W -> Option<C>, w: W)
    : (r: Option<C>)
    ensures r.None? <==> Decode(u, po, pc, w).None?
    ensures po(w).Some? ==> r == Some(Conversion.FromOld(u, po(w).value))
    ensures po(w).None? ==> r == pc(w)
  {
    match Decode(u, po, pc, w)
    case None => None
    case Some(x) => Some(x.IntoCurrent(u))
  }

  /** The impl that `#[derive(CompatibleWith)]` generates for a type `T`:
      `From<Compatible<Old, T>> for T`, which calls `into_current`. */
  function DerivedFrom<O, C>(u: Conversion.Upgrade<O, C>, x: Compatible<O, C>): (r: C)
    ensures x.Normalized(u) == Compatible(Current(r))
  {
    x.IntoCurrent(u)
  }

  /** Old upgrade: an old-shaped payload that the old decoder reads back comes
      out of the adapter, and out of the field hook, as exactly the user's
      conversion of the old value. */
  lemma OldUpgrade<W, O, C>(u: Conversion.Upgrade<O, C>, po: W -> Option<O>, pc: W -> Option<C>,
                            eo: O -> W, o: O)
    requires po(eo(o)) == Some(o)
    ensures Decode(u, po, pc, eo(o)) == Some(Compatible(Current(u.UserConversion()(o))))
    ensures DeserializeWith(u, po, pc, eo(o)) == Some(u.UserConversion()(o))
  {
    Conversion.DerivationAgrees(u, o);
  }

  /** Current passthrough, with the collision hazard as its other half: an
      adapter holding `Current(c)` survives encode-then-decode exactly when
      either the old decoder rejects the encoding and the current decoder
      reads `c` back, or the old decoder accepts it and converting what it read
      happens to give `c` again. */
  lemma CurrentRoundTrip<W, O, C>(u: Conversion.Upgrade<O, C>, po: W -> Option<O>, pc: W -> Option<C>,
                                  eo: O -> W, ec: C -> W, c: C)
    ensures Decode(u, po, pc, Encode(eo, ec, Compatible(Current(c)))) == Some(Compatible(Current(c)))
            <==>
            || (po(ec(c)).None? && pc(ec(c)) == Some(c))
            || (po(ec(c)).Some? && Conversion.FromOld(u, po(ec(c)).value) == c)
  {
  }

  /** The collision hazard: when the old decoder also accepts a current-shaped
      payload, the old reading wins, even if the current decoder would have
      read the payload back faithfully. */
  lemma CollisionPrefersOld<W, O, C>(u: Conversion.Upgrade<O, C>, po: W -> Option<O>, pc: W -> Option<C>,
                                     ec: C -> W, c: C, o: O)
    requires pc(ec(c)) == Some(c)
    requires po(ec(c)) == Some(o)
    ensures DeserializeWith(u, po, pc, ec(c)) == Some(Conversion.FromOld(u, o))
    ensures DeserializeWith(u, po, pc, ec(c)) == Some(c) <==> Conversion.FromOld(u, o) == c
  {
  }

  /** Self-healing writes: whatever was decoded, re-encoding it emits the
      current encoding of the value the program sees, never the old shape. */
  lemma DecodeThenEncode<W, O, C>(u: Conversion.Upgrade<O, C>, po: W -> Option<O>, pc: W -> Option<C>,
                                  eo: O -> W, ec: C -> W, w: W)
    requires Decode(u, po, pc, w).Some?
    ensures Encode(eo, ec, Decode(u, po, pc, w).value) == ec(Decode(u, po, pc, w).value.IntoCurrent(u))
  {
  }
}
