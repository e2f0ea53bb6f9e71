// The part of the Faust language that the component creator writes, with its text and its
// meaning in any algebra of signal processors.
module FaustCode {

  datatype Operator = Parallel | Sequential {
    function Symbol(): string { if Parallel? then "," else ":" }
  }

  datatype Expr =
    | Text(text: string)
    | Component(tag: string, path: string)
    | Group(vertical: bool, tag: string, body: Expr)
    | Compose(op: Operator, left: Expr, right: Expr)
    | Stereoize(body: Expr)
    | Recursivize(forward: Expr, feedback: Expr)

  function Print(e: Expr): string {
    match e
    case Text(text) => text
    case Component(tag, path) => "vgroup(\"" + tag + "\", component(\"" + path + "\"))"
    case Group(vertical, tag, body) =>
      (if vertical then "vgroup(\"" else "hgroup(\"") + tag + "\"," + Print(body) + ")"
    case Compose(op, l, r) => Print(l) + op.Symbol() + Print(r)
    case Stereoize(body) => "stereoize(" + Print(body) + ")"
    case Recursivize(f, b) => "recursivize(" + Print(f) + "," + Print(b) + ")"
  }

  // A meaning for each construct, except for groups: they only lay out the user interface.
  datatype Algebra<!D(!new)> = Algebra(text: string -> D, component: string -> D,
                                 par: (D, D) -> D, then_: (D, D) -> D,
                                 stereo: D -> D, rec: (D, D) -> D)
  {
    function Of(op: Operator): (D, D) -> D { if op.Parallel? then par else then_ }

    ghost predicate Associative() {
      (forall x: D, y: D, z: D :: par(par(x, y), z) == par(x, par(y, z)))
      && (forall x: D, y: D, z: D :: then_(then_(x, y), z) == then_(x, then_(y, z)))
    }
  }

  function Meaning<D(!new)>(a: Algebra<D>, e: Expr): D {
    match e
    case Text(text) => a.text(text)
    case Component(_, path) => a.component(path)
    case Group(_, _, body) => Meaning(a, body)
    case Compose(op, l, r) => a.Of(op)(Meaning(a, l), Meaning(a, r))
    case Stereoize(body) => a.stereo(Meaning(a, body))
    case Recursivize(f, b) => a.rec(Meaning(a, f), Meaning(a, b))
  }

  // Composition of a non-empty list, from left to right.
  function Chain<D(!new)>(a: Algebra<D>, op: Operator, ds: seq<D>): D
    requires ds != []
  {
    if |ds| == 1 then ds[0] else a.Of(op)(ds[0], Chain(a, op, ds[1..]))
  }

  lemma {:induction false} ChainAppend<D(!new)>(a: Algebra<D>, op: Operator, s: seq<D>, t: seq<D>)
    requires a.Associative() && s != [] && t != []
    ensures Chain(a, op, s + t) == a.Of(op)(Chain(a, op, s), Chain(a, op, t))
  {
    if |s| == 1 {
      assert (s + t)[1..] == t;
    } else {
      assert (s + t)[1..] == s[1..] + t;
      ChainAppend(a, op, s[1..], t);
    }
  }
}
