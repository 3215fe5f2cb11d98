/** Checked scalars shared by the whole model (crates/w9pt-fs-state/src/values.rs). */
module Values {

  datatype Option<+T> = None | Some(value: T)

  const U64_MAX: nat := 0xFFFF_FFFF_FFFF_FFFF

  type Byte = b: nat | b < 256

  type Bytes = seq<Byte>

  /** Addition that fails instead of wrapping past 64 bits. */
  function CheckedAdd(a: nat, b: nat): (r: Option<nat>)
  {
    if a + b <= U64_MAX then Some(a + b) else None
  }

  function CheckedNext(a: nat): (r: Option<nat>)
  {
    CheckedAdd(a, 1)
  }

  /** Direction and amount of one checked persistent counter adjustment. */
  datatype CounterAdjustment = Increase(amount: nat) | Decrease(amount: nat)

  function Adjust(adjustment: CounterAdjustment, current: nat): (r: Option<nat>)
  {
    match adjustment
    case Increase(amount) => CheckedAdd(current, amount)
    case Decrease(amount) => if amount <= current then Some(current - amount) else None
  }

  /** Lexicographic order, the derived order of tuples and byte strings. */
  predicate LexLess(a: seq<nat>, b: seq<nat>)
    decreases |a|
  {
    if b == [] then false
    else if a == [] then true
    else a[0] < b[0] || (a[0] == b[0] && LexLess(a[1..], b[1..]))
  }

  lemma {:induction false} LexLessIrreflexive(a: seq<nat>)
    ensures !LexLess(a, a)
    decreases |a|
  {
    if a != [] {
      LexLessIrreflexive(a[1..]);
    }
  }

  lemma {:induction false} LexLessTransitive(a: seq<nat>, b: seq<nat>, c: seq<nat>)
    requires LexLess(a, b) && LexLess(b, c)
    ensures LexLess(a, c)
    decreases |a|
  {
    if a != [] && a[0] == b[0] == c[0] {
      LexLessTransitive(a[1..], b[1..], c[1..]);
    }
  }

  lemma {:induction false} LexLessTotal(a: seq<nat>, b: seq<nat>)
    ensures a == b || LexLess(a, b) || LexLess(b, a)
    decreases |a|
  {
    if a != [] && b != [] && a[0] == b[0] {
      LexLessTotal(a[1..], b[1..]);
      assert a == [a[0]] + a[1..] && b == [b[0]] + b[1..];
    }
  }
}
