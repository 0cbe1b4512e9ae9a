/** Recursive composition: because the adapter's own decoder and encoder have
    the same shapes as any other type's, `Compatible<Compatible<A, B>, C>` is
    the generic adapter instantiated with the inner adapter as its old type.
    No further machinery is involved: a chain of versions is built from the
    pairwise adapter alone. */
module Nesting {
  import opened Wrappers
  import Conversion
  import opened Compat

  /** Decoding `Compatible<Compatible<A, B>, C>`: the outer adapter's old
      decoder is the inner adapter's decoder. */
  function DecodeChain<W, A, B, C>(inner: Conversion.Upgrade<A, B>, outer: Conversion.Upgrade<Compatible<A, B>, C>,
                                   pa: W -> Option<A>, pb: W -> Option<B>, pc: W -> Option<C>, w: W)
    : (r: Option<Compatible<Compatible<A, B>, C>>)
    ensures r.None? <==> pa(w).None? && pb(w).None? && pc(w).None?
    ensures r.Some? ==> r.value.HoldsCurrent()
    ensures pa(w).Some? ==>
              r == Some(Compatible(Current(Conversion.FromOld(outer,
                         Compatible(Current(Conversion.FromOld(inner, pa(w).value)))))))
    ensures pa(w).None? && pb(w).Some? ==>
              r == Some(Compatible(Current(Conversion.FromOld(outer, Compatible(Current(pb(w).value))))))
    ensures pa(w).None? && pb(w).None? && pc(w).Some? ==> r == Some(Compatible(Current(pc(w).value)))
  {
    Decode(outer, Decoder(inner, pa, pb), pc, w)
  }

  /** The conversion a user writes for the outer step of a chain:
      `impl From<Compatible<A, B>> for C`, unwrapping the inner adapter and
      upgrading its `B` with `g`. */
  function ChainUpgrade<A, B, C>(inner: Conversion.Upgrade<A, B>, g: B -> C): Conversion.Upgrade<Compatible<A, B>, C>
  {
    Conversion.ViaFrom((x: Compatible<A, B>) => g(x.IntoCurrent(inner)))
  }

  /** With that outer conversion, the field hook on a three-version chain
      yields the composed upgrade of whichever version the payload matched,
      the oldest version being tried first. */
  lemma ChainComposes<W, A, B, C>(inner: Conversion.Upgrade<A, B>, g: B -> C,
                                  pa: W -> Option<A>, pb: W -> Option<B>, pc: W -> Option<C>, w: W)
    ensures DeserializeWith(ChainUpgrade(inner, g), Decoder(inner, pa, pb), pc, w)
            == if pa(w).Some? then Some(g(inner.UserConversion()(pa(w).value)))
               else if pb(w).Some? then Some(g(pb(w).value))
               else pc(w)
  {
    var outer := ChainUpgrade(inner, g);
    var mid := Decode(inner, pa, pb, w);
    assert Decoder(inner, pa, pb)(w) == mid;
    if mid.Some? {
      Conversion.DerivationAgrees(outer, mid.value);
      assert Conversion.FromOld(outer, mid.value) == g(mid.value.IntoCurrent(inner));
      if pa(w).Some? {
        Conversion.DerivationAgrees(inner, pa(w).value);
      }
    }
  }

  /** The decoder reads back everything the encoder writes. */
  ghost predicate ReadsBack<W, T(!new)>(p: W -> Option<T>, e: T -> W)
  {
    forall x :: p(e(x)) == Some(x)
  }

  /** The decoder rejects everything the encoder writes: the two shapes are
      structurally distinguishable. */
  ghost predicate RejectsAll<W, S, T(!new)>(p: W -> Option<S>, e: T -> W)
  {
    forall x :: p(e(x)).None?
  }

  /** When the current shape reads back and the old decoder rejects it, every
      current-holding adapter survives encode-then-decode. */
  lemma AdapterReadsBack<W, O, C(!new)>(u: Conversion.Upgrade<O, C>, po: W -> Option<O>, pc: W -> Option<C>,
                                  eo: O -> W, ec: C -> W, x: Compatible<O, C>)
    requires ReadsBack(pc, ec) && RejectsAll(po, ec)
    requires x.HoldsCurrent()
    ensures Decoder(u, po, pc)(Encoder(eo, ec)(x)) == Some(x)
  {
    assert pc(ec(x.alt.currentValue)) == Some(x.alt.currentValue);
    assert po(ec(x.alt.currentValue)).None?;
  }

  /** An encoding that both of an adapter's decoders reject is rejected by the
      adapter: distinguishability carries over to a nested old type. */
  lemma AdapterRejectsAll<W, A, B, T(!new)>(u: Conversion.Upgrade<A, B>, pa: W -> Option<A>, pb: W -> Option<B>, e: T -> W)
    requires RejectsAll(pa, e) && RejectsAll(pb, e)
    ensures RejectsAll(Decoder(u, pa, pb), e)
  {
    forall x: T ensures Decoder(u, pa, pb)(e(x)).None? {
      assert pa(e(x)).None? && pb(e(x)).None?;
    }
  }

  /** Current passthrough for a three-version chain: if the newest shape reads
      back and neither older decoder accepts it, a current value of the chain
      survives encode-then-decode. */
  lemma ChainReadsBack<W, A, B, C(!new)>(inner: Conversion.Upgrade<A, B>, outer: Conversion.Upgrade<Compatible<A, B>, C>,
                                   pa: W -> Option<A>, pb: W -> Option<B>, pc: W -> Option<C>,
                                   ea: A -> W, eb: B -> W, ec: C -> W, c: C)
    requires ReadsBack(pc, ec) && RejectsAll(pa, ec) && RejectsAll(pb, ec)
    ensures DecodeChain(inner, outer, pa, pb, pc, Encode(Encoder(ea, eb), ec, Compatible(Current(c))))
            == Some(Compatible(Current(c)))
  {
    AdapterRejectsAll(inner, pa, pb, ec);
    AdapterReadsBack(outer, Decoder(inner, pa, pb), pc, Encoder(ea, eb), ec, Compatible(Current(c)));
  }
}
