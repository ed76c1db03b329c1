/**
 * `formatSize`: which unit a byte count is displayed in.  The numeric text
 * (`toFixed` on a floating-point quotient) is not modelled.
 */
module Format {

  datatype SizeUnit = Bytes | Kilobytes | Megabytes

  /** Bytes per unit. */
  function Factor(u: SizeUnit): nat
  {
    match u
    case Bytes => 1
    case Kilobytes => 1024
    case Megabytes => 1024 * 1024
  }

  /** Position of a unit in the order B < KB < MB. */
  function Rank(u: SizeUnit): nat
  {
    match u
    case Bytes => 0
    case Kilobytes => 1
    case Megabytes => 2
  }

  /**
   * The unit `formatSize` picks.  The displayed quantity is at least one
   * unit (except for bytes) and below 1024 units (except for megabytes).
   */
  function UnitFor(bytes: nat): (u: SizeUnit)
    ensures u == Bytes || Factor(u) <= bytes
    ensures u == Megabytes || bytes < 1024 * Factor(u)
  {
    if bytes < 1024 then Bytes
    else if bytes < 1024 * 1024 then Kilobytes
    else Megabytes
  }

  /** Those two bounds single out the unit: no other unit satisfies both. */
  lemma UnitForUnique(bytes: nat, u: SizeUnit)
    requires u == Bytes || Factor(u) <= bytes
    requires u == Megabytes || bytes < 1024 * Factor(u)
    ensures u == UnitFor(bytes)
  {
  }

  /** A larger size never gets a smaller unit. */
  lemma UnitForMonotone(a: nat, b: nat)
    requires a <= b
    ensures Rank(UnitFor(a)) <= Rank(UnitFor(b))
  {
  }
}
