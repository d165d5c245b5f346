/** The nom 5 results and combinators that the Engine.IO payload codecs are built from. */
module Nom {
  /** What a parser returns. `Error` is recoverable: `alt` tries its next branch and
      `fold_many0` stops on it. `Failure` is not. `Overflow` is the panic of a checked
      integer operation. The positions that nom attaches to errors are dropped, because
      every caller of the codecs discards them. */
  datatype IResult<E, T> =
    | Ok(rest: seq<E>, value: T)
    | Error
    | Failure
    | Overflow
  {
    predicate IsFailure() {
      !Ok?
    }

    function PropagateFailure<U>(): IResult<E, U>
      requires IsFailure()
    {
      match this
      case Error => IResult.Error
      case Failure => IResult.Failure
      case Overflow => IResult.Overflow
    }

    function Extract(): (seq<E>, T)
      requires !IsFailure()
    {
      (rest, value)
    }
  }

  /** How a public decoder ends: a value, its error, or a panic. */
  datatype Outcome<T> = Decoded(value: T) | Rejected | Panicked

  function ToOutcome<E, T>(r: IResult<E, T>): Outcome<T> {
    match r
    case Ok(_, value) => Decoded(value)
    case Error => Rejected
    case Failure => Rejected
    case Overflow => Panicked
  }

  ghost predicate IsSuffix<E>(rest: seq<E>, input: seq<E>) {
    |rest| <= |input| && input[|input| - |rest|..] == rest
  }

  /** `take(n)`: exactly `n` elements. */
  function Take<E>(n: nat, input: seq<E>): (r: IResult<E, seq<E>>)
    ensures r.Ok? <==> n <= |input|
    ensures r.Ok? ==> r.value + r.rest == input && |r.value| == n
    ensures !r.Ok? ==> r.Error?
  {
    if n <= |input| then Ok(input[n..], input[..n]) else IResult.Error
  }

  /** `char(c)`: exactly the element `c`. */
  function Char<E(==)>(c: E, input: seq<E>): IResult<E, E> {
    if |input| > 0 && input[0] == c then Ok(input[1..], c) else IResult.Error
  }

  /** The length of the longest prefix whose elements all satisfy `accept`. */
  function Span<E>(accept: E -> bool, input: seq<E>): (n: nat)
    ensures n <= |input|
    ensures forall i :: 0 <= i < n ==> accept(input[i])
    ensures n < |input| ==> !accept(input[n])
  {
    if |input| > 0 && accept(input[0]) then 1 + Span(accept, input[1..]) else 0
  }

  /** `digit1` and `take_till1`: the longest non-empty prefix of accepted elements. */
  function TakeWhile1<E>(accept: E -> bool, input: seq<E>): (r: IResult<E, seq<E>>)
    ensures r.Ok? <==> |input| > 0 && accept(input[0])
    ensures r.Ok? ==> r.value + r.rest == input && |r.value| == Span(accept, input)
    ensures r.Ok? ==> forall i :: 0 <= i < |r.value| ==> accept(r.value[i])
    ensures !r.Ok? ==> r.Error?
  {
    var n := Span(accept, input);
    if n > 0 then Ok(input[n..], input[..n]) else IResult.Error
  }

  /** `alt((first, second))`, on the results of its two branches on the same input. */
  function Alt<E, T>(first: IResult<E, T>, second: IResult<E, T>): IResult<E, T> {
    if first.Error? then second else first
  }

  /** Every success leaves a suffix of the input. */
  ghost predicate Consuming<E(!new), T(!new)>(parser: seq<E> -> IResult<E, T>) {
    forall input :: parser(input).Ok? ==> IsSuffix(parser(input).rest, input)
  }

  /** `fold_many0` with the accumulator that pushes: collects the values of `parser`
      until its first recoverable error. A success that consumes nothing is an error. */
  function FoldMany0<E(!new, ==), T(!new)>(parser: seq<E> -> IResult<E, T>, input: seq<E>): IResult<E, seq<T>>
    requires Consuming(parser)
    decreases |input|
  {
    match parser(input)
    case Ok(rest, value) =>
      if rest == input then
        IResult.Error
      else
        (match FoldMany0(parser, rest)
         case Ok(end, values) => Ok(end, [value] + values)
         case Error => IResult.Error
         case Failure => IResult.Failure
         case Overflow => IResult.Overflow)
    case Error => Ok(input, [])
    case Failure => IResult.Failure
    case Overflow => IResult.Overflow
  }

  /** The loop of `fold_many0`, over a mutated accumulator. */
  method FoldMany0Loop<E(!new, ==), T(!new)>(parser: seq<E> -> IResult<E, T>, start: seq<E>)
    returns (r: IResult<E, seq<T>>)
    requires Consuming(parser)
    ensures r == FoldMany0(parser, start)
  {
    var acc: seq<T> := [];
    var input := start;
    PrependNothing(FoldMany0(parser, start));
    while true
      invariant FoldMany0(parser, start) == Prepend(acc, FoldMany0(parser, input))
      decreases |input|
    {
      var step := parser(input);
      match step {
        case Ok(rest, value) =>
          if rest == input {
            return IResult.Error;
          }
          PrependPrepend(acc, [value], FoldMany0(parser, rest));
          acc := acc + [value];
          input := rest;
        case Error =>
          assert acc + [] == acc;
          return Ok(input, acc);
        case Failure => return IResult.Failure;
        case Overflow => return IResult.Overflow;
      }
    }
  }

  /** The result with `values` pushed in front of what it collected. */
  function Prepend<E, T>(values: seq<T>, r: IResult<E, seq<T>>): IResult<E, seq<T>> {
    match r
    case Ok(rest, more) => Ok(rest, values + more)
    case Error => IResult.Error
    case Failure => IResult.Failure
    case Overflow => IResult.Overflow
  }

  lemma PrependNothing<E, T>(r: IResult<E, seq<T>>)
    ensures Prepend([], r) == r
  {
    if r.Ok? {
      assert [] + r.value == r.value;
    }
  }

  lemma PrependPrepend<E, T>(a: seq<T>, b: seq<T>, r: IResult<E, seq<T>>)
    ensures Prepend(a, Prepend(b, r)) == Prepend(a + b, r)
  {
    if r.Ok? {
      assert a + (b + r.value) == (a + b) + r.value;
    }
  }

  /** One turn of the loop. */
  lemma FoldMany0Step<E(!new), T(!new)>(parser: seq<E> -> IResult<E, T>, input: seq<E>)
    requires Consuming(parser)
    requires parser(input).Ok? && |parser(input).rest| < |input|
    ensures FoldMany0(parser, input) == Prepend([parser(input).value], FoldMany0(parser, parser(input).rest))
  {
  }

  /** The longest accepted prefix of `a + b` is `a` when `b` starts with nothing accepted. */
  lemma {:induction false} SpanAppend<E>(accept: E -> bool, a: seq<E>, b: seq<E>)
    requires forall i :: 0 <= i < |a| ==> accept(a[i])
    requires b == [] || !accept(b[0])
    ensures Span(accept, a + b) == |a|
  {
    if a == [] {
      assert a + b == b;
    } else {
      SpanAppend(accept, a[1..], b);
      assert (a + b)[1..] == a[1..] + b;
    }
  }
}
