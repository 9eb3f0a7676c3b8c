/** Value types of the team-infection game mode: the team enumeration, its
    one-byte wire ordinal and the material index the renderer is given. */
module Teams {

  /** A value or nothing; a player reference that may be null is an
      `Option<int>` holding the player's actor number. */
  datatype Option<+T> = None | Some(value: T)

  /** The `Team : byte` enumeration; declaration order gives the ordinal. */
  datatype Team = Teamless | Red | Blue

  newtype byte = x: int | 0 <= x < 256

  /** `(byte)team`: the ordinal written to the network stream. */
  function Ordinal(t: Team): (b: byte)
    ensures b < 3
    ensures b == 0 <==> t == Teamless
  {
    match t
    case Teamless => 0
    case Red => 1
    case Blue => 2
  }

  /** `(Team)(byte)b` for the ordinals that name a member; None for the rest. */
  function FromOrdinal(b: byte): (t: Option<Team>)
    ensures t.Some? <==> b < 3
  {
    if b == 0 then Some(Teamless)
    else if b == 1 then Some(Red)
    else if b == 2 then Some(Blue)
    else None
  }

  /** Decoding an ordinal gives back the team that was encoded. */
  lemma OrdinalRoundTrip(t: Team)
    ensures FromOrdinal(Ordinal(t)) == Some(t)
  {
  }

  /** Every ordinal that decodes is the encoding of what it decodes to. */
  lemma OrdinalOnto(b: byte)
    requires b < 3
    ensures FromOrdinal(b).Some? && Ordinal(FromOrdinal(b).value) == b
  {
  }

  /** The `_teamMaterialIndex` table: Teamless 0, Red 2, Blue 3. */
  function MaterialIndex(t: Team): (i: int)
    ensures i == 0 <==> t == Teamless
  {
    match t
    case Teamless => 0
    case Red => 2
    case Blue => 3
  }

  /** Different teams are drawn with different materials. */
  lemma MaterialIndexInjective(s: Team, t: Team)
    ensures MaterialIndex(s) == MaterialIndex(t) ==> s == t
  {
  }
}
