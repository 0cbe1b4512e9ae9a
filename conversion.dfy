/** The conversion contract pair of src/lib.rs: `CompatibleWith<Old>` (the
    current type produces itself from an old value) and `CompatibleTo<Current>`
    (the old value converts itself into the current type), together with the
    blanket implementations that derive both from one user-written conversion. */
module Conversion {

  /** The one conversion a user writes for a version pair. Rust admits two ways
      to feed the adapter: a plain `impl From<Old> for Current`, from which the
      blanket impl derives `CompatibleWith`, or an `impl CompatibleWith<Old>
      for Current` written by hand. Either way the conversion is total. */
  datatype Upgrade<-O, C> =
    | ViaFrom(from: O -> C)
    | ViaCompatibleWith(fromOld: O -> C)
  {
    /** The function the user actually wrote, whichever route was taken. */
    function UserConversion(): O -> C
    {
      match this
      case ViaFrom(f) => f
      case ViaCompatibleWith(g) => g
    }
  }

  /** The standard library's blanket `Into`: `value.into()` is `From::from(value)`. */
  function Into<O, C>(from: O -> C, value: O): C
  {
    from(value)
  }

  /** `CompatibleWith::from_old`: the blanket impl calls `value.into()` when the
      user gave a `From`; a hand-written impl is used as it is. */
  function FromOld<O, C>(u: Upgrade<O, C>, value: O): C
  {
    match u
    case ViaFrom(f) => Into(f, value)
    case ViaCompatibleWith(g) => g(value)
  }

  /** `CompatibleTo::into_current`: the blanket impl calls `Current::from_old(self)`. */
  function IntoCurrent<O, C>(u: Upgrade<O, C>, value: O): C
  {
    FromOld(u, value)
  }

  /** Both derived directions agree with the single conversion the user wrote,
      so the two directions cannot drift apart. */
  lemma DerivationAgrees<O, C>(u: Upgrade<O, C>, value: O)
    ensures IntoCurrent(u, value) == FromOld(u, value)
    ensures FromOld(u, value) == u.UserConversion()(value)
    ensures u.ViaFrom? ==> IntoCurrent(u, value) == Into(u.from, value)
  {
  }
}
