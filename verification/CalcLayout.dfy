/** Expressions, their value, and the ways of writing them as text. */
module CalcLayout {
  import opened CalcMachine
  import opened Digits

  /** An expression together with one way of writing it down: redundant
      parentheses (Group) and the number of spaces before each token are part
      of it. A number is a sign, digits and optionally a point and more digits. */
  datatype Layout =
    | Number(spaces: nat, negative: bool, digits: string, point: bool, decimals: string)
    | Group(spaces: nat, inner: Layout, spacesClose: nat)
    | Binary(op: string, left: Layout, spacesOp: nat, right: Layout)

  predicate IsOperator(op: string) {
    op == "+" || op == "-" || op == "*" || op == "/" || op == "//" || op == "%" || op == "**"
  }

  /** How tightly the outermost construct binds. */
  function Level(e: Layout): nat {
    if e.Binary? then Precedence(e.op) else 3
  }

  /** The parentheses that are needed are there: operators of one precedence
      associate to the left. */
  predicate WellFormed(e: Layout) {
    match e
    case Number(_, _, digits, point, decimals) =>
      && AllDigits(digits) && AllDigits(decimals)
      && (digits != [] || point) && (decimals != [] ==> point)
    case Group(_, inner, _) => WellFormed(inner)
    case Binary(op, left, _, right) =>
      && IsOperator(op) && WellFormed(left) && WellFormed(right)
      && Level(left) >= Precedence(op) && Level(right) > Precedence(op)
  }

  // ----- value

  function Decimal(negative: bool, digits: string, decimals: string): real
    requires AllDigits(digits) && AllDigits(decimals)
  {
    Pow10Positive(|decimals|);
    var v := Natural(digits) as real + Natural(decimals) as real / Pow10(|decimals|) as real;
    if negative then -v else v
  }

  function Meaning(pow: Power, e: Layout): real
    requires WellFormed(e)
  {
    match e
    case Number(_, negative, digits, _, decimals) => Decimal(negative, digits, decimals)
    case Group(_, inner, _) => Meaning(pow, inner)
    case Binary(op, left, _, right) => Operation(pow, op, Meaning(pow, left), Meaning(pow, right))
  }

  // ----- text

  function Spaces(n: nat): string {
    if n == 0 then "" else " " + Spaces(n - 1)
  }

  function NumberText(negative: bool, digits: string, point: bool, decimals: string): string {
    (if negative then "-" else "") + digits + (if point then "." else "") + decimals
  }

  function Text(e: Layout): string {
    match e
    case Number(n, negative, digits, point, decimals) => Spaces(n) + NumberText(negative, digits, point, decimals)
    case Group(n, inner, m) => Spaces(n) + "(" + Text(inner) + Spaces(m) + ")"
    case Binary(op, left, n, right) => Text(left) + Spaces(n) + op + Text(right)
  }
}
