/** The regular expression matcher of user/grep.c, against a declarative meaning of expressions. Strings have no NUL in
    them, and a pointer into the text is a position. */
module Grep {
  /** What an expression is made of: one character, any number of one character, or the end of the text. */
  datatype Item = One(c: char) | Many(c: char) | End

  /** A star applies to the character before it; a dollar sign is special only at the end. */
  function Items(re: string): (items: seq<Item>) {
    if re == [] then []
    else if |re| > 1 && re[1] == '*' then [Many(re[0])] + Items(re[2..])
    else if re == "$" then [End]
    else [One(re[0])] + Items(re[1..])
  }

  predicate Fits(c: char, x: char) {
    c == '.' || c == x
  }

  /** The text from p up to q is what the item stands for. */
  predicate Piece(item: Item, text: string, p: nat, q: nat) {
    && p <= q <= |text|
    && match item
       case One(c) => q == p + 1 && Fits(c, text[p])
       case Many(c) => forall i | p <= i < q :: Fits(c, text[i])
       case End => p == q == |text|
  }

  /** The text is cut so that each piece is what its item stands for. */
  predicate Cut(items: seq<Item>, text: string, cuts: seq<nat>) {
    |cuts| == |items| + 1 && cuts[0] <= |text| && forall i | 0 <= i < |items| ::
      Piece(items[i], text, cuts[i], cuts[i + 1])
  }

  /** The expression matches at position p. */
  ghost predicate At(items: seq<Item>, text: string, p: nat) {
    exists cuts :: Cut(items, text, cuts) && cuts[0] == p
  }

  /** The meaning of a whole expression: a caret at its front ties it to the start of the text. */
  ghost predicate Means(re: string, text: string) {
    if re != [] && re[0] == '^' then At(Items(re[1..]), text, 0) else exists p :: At(Items(re), text, p)
  }

  lemma AtEmpty(text: string, p: nat)
    ensures At([], text, p) <==> p <= |text|
  {
    if p <= |text| {
      assert Cut([], text, [p]);
    }
  }

  /** An expression matches at p if its first item stands for the text up to some q, and the rest matches at q. */
  lemma AtFirst(item: Item, rest: seq<Item>, text: string, p: nat)
    ensures At([item] + rest, text, p) <==> exists q :: Piece(item, text, p, q) && At(rest, text, q)
  {
    var items := [item] + rest;
    if At(items, text, p) {
      var cuts :| Cut(items, text, cuts) && cuts[0] == p;
      assert Piece(items[0], text, cuts[0], cuts[1]);
      forall i | 0 <= i < |rest|
        ensures Piece(rest[i], text, cuts[1..][i], cuts[1..][i + 1])
      {
        assert Piece(items[i + 1], text, cuts[i + 1], cuts[i + 1 + 1]);
      }
      assert Cut(rest, text, cuts[1..]);
    }
    if q :| Piece(item, text, p, q) && At(rest, text, q) {
      var cuts :| Cut(rest, text, cuts) && cuts[0] == q;
      var all := [p] + cuts;
      forall i | 0 <= i < |items|
        ensures Piece(items[i], text, all[i], all[i + 1])
      {
        assert i > 0 ==> Piece(rest[i - 1], text, cuts[i - 1], cuts[i - 1 + 1]);
      }
      assert Cut(items, text, all) && all[0] == p;
    }
  }

  /** matchhere */
  method MatchHere(re: string, text: string, p: nat) returns (r: bool)
    requires p <= |text|
    ensures r <==> At(Items(re), text, p)
    decreases |re|, 0
  {
    if re == [] {
      AtEmpty(text, p);
      return true;
    }
    if |re| > 1 && re[1] == '*' {
      AtFirst(Many(re[0]), Items(re[2..]), text, p);
      r := MatchStar(re[0], re[2..], text, p);
      return;
    }
    if re == "$" {
      AtFirst(End, [], text, p);
      AtEmpty(text, p);
      assert p == |text| ==> Piece(End, text, p, p);
      assert [End] + [] == [End];
      return p == |text|;
    }
    AtFirst(One(re[0]), Items(re[1..]), text, p);
    if p < |text| && (re[0] == '.' || re[0] == text[p]) {
      assert Piece(One(re[0]), text, p, p + 1);
      r := MatchHere(re[1..], text, p + 1);
      return;
    }
    r := false;
  }

  /** matchstar */
  method MatchStar(c: char, re: string, text: string, p: nat) returns (r: bool)
    requires p <= |text|
    ensures r <==> exists q :: Piece(Many(c), text, p, q) && At(Items(re), text, q)
    decreases |re|, 1
  {
    var t := p;
    while true
      invariant p <= t <= |text| && Piece(Many(c), text, p, t)
      invariant forall q | p <= q < t :: !At(Items(re), text, q)
      decreases |text| - t
    {
      r := MatchHere(re, text, t);
      if r {
        return;
      }
      if !(t < |text| && (text[t] == c || c == '.')) {
        return false;
      }
      t := t + 1;
    }
  }

  /** match: some position of the text satisfies the expression, or its start if the expression begins with a caret. */
  method Match(re: string, text: string) returns (r: bool)
    ensures r <==> Means(re, text)
  {
    if re != [] && re[0] == '^' {
      r := MatchHere(re[1..], text, 0);
      return;
    }
    var t := 0;
    while true
      invariant 0 <= t <= |text|
      invariant forall p | 0 <= p < t :: !At(Items(re), text, p)
      decreases |text| - t
    {
      r := MatchHere(re, text, t);
      if r {
        return;
      }
      if t == |text| {
        NotBeyond(Items(re), text);
        return false;
      }
      t := t + 1;
    }
  }

  lemma NotBeyond(items: seq<Item>, text: string)
    ensures forall p: nat | At(items, text, p) :: p <= |text|
  {
  }
}
