/** Pattern trees of LPeg without captures and grammars, and what a tree means
    as a parsing expression. */
module LpegTree {
  import opened Wrappers

  predicate IsByte(c: int) { 0 <= c < 256 }

  type Char = c: int | IsByte(c)

  type Charset = set<Char>

  function Full(): Charset {
    set c: int | 0 <= c < 256 && IsByte(c)
  }

  datatype Tree =
    | TChar(c: Char)
    | TSet(cs: Charset)
    | TAny
    | TTrue
    | TFalse
    | TRep(body: Tree)
    | TSeq(first: Tree, second: Tree)
    | TChoice(first: Tree, second: Tree)
    | TNot(body: Tree)
    | TAnd(body: Tree)
    | TBehind(n: nat, body: Tree)

  /** The position after `t` matched `s` from `i`, or None if it fails.
      A repetition whose body consumes nothing stops, which is where the trees
      accepted by the tree builder never get. */
  function Match(t: Tree, s: seq<Char>, i: nat): (r: Option<nat>)
    requires i <= |s|
    ensures r.Some? ==> i <= r.value <= |s|
    decreases t, |s| - i
  {
    match t
    case TChar(c) => if i < |s| && s[i] == c then Some(i + 1) else None
    case TSet(cs) => if i < |s| && s[i] in cs then Some(i + 1) else None
    case TAny => if i < |s| then Some(i + 1) else None
    case TTrue => Some(i)
    case TFalse => None
    case TRep(p) =>
      (match Match(p, s, i)
       case None => Some(i)
       case Some(j) => if j == i then Some(i) else Match(t, s, j))
    case TSeq(p, q) =>
      (match Match(p, s, i)
       case None => None
       case Some(j) => Match(q, s, j))
    case TChoice(p, q) =>
      (match Match(p, s, i)
       case None => Match(q, s, i)
       case Some(j) => Some(j))
    case TNot(p) => if Match(p, s, i).Some? then None else Some(i)
    case TAnd(p) => if Match(p, s, i).Some? then Some(i) else None
    case TBehind(n, p) => if n <= i && Match(p, s, i - n).Some? then Some(i) else None
  }
}
