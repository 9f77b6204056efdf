/** The three kinds of grid cell and the two marker characters that denote the non-inert ones. */
module Fields {

  /** A planted cell (eggplant), an open cell (sprout), or an inert cell (any other character). */
  datatype Field = Eggplant | Empty | Ignore

  /** U+1F346 EGGPLANT, the planted marker. */
  const EggplantChar: char := '\U{1F346}'

  /** U+1F331 SEEDLING, the open marker. */
  const SproutChar: char := '\U{1F331}'

  predicate IsMarker(ch: char)
  {
    ch == EggplantChar || ch == SproutChar
  }

  /** The cell a source character stands for. */
  function FieldOf(ch: char): (f: Field)
    ensures f == Ignore <==> !IsMarker(ch)
    ensures f == Eggplant <==> ch == EggplantChar
    ensures f == Empty <==> ch == SproutChar
  {
    if ch == EggplantChar then Eggplant
    else if ch == SproutChar then Empty
    else Ignore
  }

  /** The numeric value of a cell in neighbour sums and output bits. */
  function Value(f: Field): (v: nat)
    ensures v <= 1
    ensures v == 1 <==> f == Eggplant
  {
    match f
    case Eggplant => 1
    case _ => 0
  }
}
