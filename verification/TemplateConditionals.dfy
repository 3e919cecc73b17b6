/** Resolving the conditional blocks of a prompt template: prompts/renderer.py. */
module TemplateConditionals {
  import opened Seqs

  /** A conditional block in a text: from `start` to `end`, its body between the opening and the closing tag. */
  datatype Block = NoBlock | Block(start: nat, bodyStart: nat, bodyEnd: nat, end: nat)

  /** The regular expression, and the branch that the render values choose from a body. Assumed of them is only
      that both tags have characters, and that a branch is no longer than its body. */
  datatype Template = Template(find: string -> Block, branch: (string, string) -> string) {
    ghost predicate Lawful() {
      && (forall text :: find(text).Block? ==>
            var b := find(text); b.start < b.bodyStart <= b.bodyEnd < b.end <= |text|)
      && (forall tag, body :: |branch(tag, body)| <= |body|)
    }
  }

  /** One pass: the blocks from left to right, each replaced by its branch. */
  ghost function Pass(t: Template, text: string): string
    requires t.Lawful()
    decreases |text|
  {
    var b := t.find(text);
    if b.NoBlock? then text
    else text[..b.start] + t.branch(text[b.start..b.bodyStart], text[b.bodyStart..b.bodyEnd]) + Pass(t, text[b.end..])
  }

  /** A pass that finds a block makes the text shorter. */
  lemma {:induction false} PassShortens(t: Template, text: string)
    requires t.Lawful()
    ensures |Pass(t, text)| <= |text|
    ensures t.find(text).Block? ==> |Pass(t, text)| < |text|
    decreases |text|
  {
    var b := t.find(text);
    if b.Block? { PassShortens(t, text[b.end..]); }
  }

  /** A stretch of text without a block, and the block after it. */
  datatype Piece = Piece(gap: string, opening: string, body: string, closing: string)

  ghost function Whole(pieces: seq<Piece>, last: string): string {
    if pieces == [] then last
    else
      var p := pieces[0];
      p.gap + p.opening + p.body + p.closing + Whole(pieces[1..], last)
  }

  ghost function Resolved(t: Template, pieces: seq<Piece>, last: string): string {
    if pieces == [] then last
    else pieces[0].gap + t.branch(pieces[0].opening, pieces[0].body) + Resolved(t, pieces[1..], last)
  }

  /** The blocks are those that are found, one after the other, and none is left. */
  ghost predicate AllFound(t: Template, pieces: seq<Piece>, last: string) {
    if pieces == [] then t.find(last).NoBlock?
    else
      var p := pieces[0];
      && t.find(Whole(pieces, last)) ==
         Block(|p.gap|, |p.gap + p.opening|, |p.gap + p.opening + p.body|, |p.gap + p.opening + p.body + p.closing|)
      && AllFound(t, pieces[1..], last)
  }

  lemma PieceOf(text: string, b: Block) returns (p: Piece)
    requires b.Block? && b.start < b.bodyStart <= b.bodyEnd < b.end <= |text|
    ensures text == p.gap + p.opening + p.body + p.closing + text[b.end..]
    ensures p.gap == text[..b.start]
    ensures p.opening == text[b.start..b.bodyStart] && p.body == text[b.bodyStart..b.bodyEnd]
    ensures b == Block(|p.gap|, |p.gap + p.opening|, |p.gap + p.opening + p.body|,
                       |p.gap + p.opening + p.body + p.closing|)
  {
    p := Piece(text[..b.start], text[b.start..b.bodyStart], text[b.bodyStart..b.bodyEnd], text[b.bodyEnd..b.end]);
    assert text == text[..b.end] + text[b.end..];
    assert text[..b.bodyEnd] == text[..b.bodyStart] + text[b.bodyStart..b.bodyEnd];
  }

  /** A pass keeps the text outside the blocks, in order, and puts the branch of each block in its place. */
  lemma {:induction false} PassKeepsOutside(t: Template, text: string) returns (pieces: seq<Piece>, last: string)
    requires t.Lawful()
    ensures text == Whole(pieces, last) && AllFound(t, pieces, last)
    ensures Pass(t, text) == Resolved(t, pieces, last)
    decreases |text|
  {
    var b := t.find(text);
    if b.NoBlock? {
      pieces, last := [], text;
    } else {
      var rest;
      rest, last := PassKeepsOutside(t, text[b.end..]);
      var p := PieceOf(text, b);
      pieces := [p] + rest;
      assert pieces[1..] == rest;
    }
  }

  method ReplaceOnce(t: Template, text: string) returns (replaced: string)
    requires t.Lawful()
    ensures replaced == Pass(t, text)
  {
    var done, rest := "", text;
    while true
      invariant Pass(t, text) == done + Pass(t, rest)
      decreases |rest|
    {
      var b := t.find(rest);
      if b.NoBlock? { return done + rest; }
      var branch := t.branch(rest[b.start..b.bodyStart], rest[b.bodyStart..b.bodyEnd]);
      Associative(done, rest[..b.start] + branch, Pass(t, rest[b.end..]));
      done, rest := done + (rest[..b.start] + branch), rest[b.end..];
    }
  }

  ghost predicate PassedTimes(t: Template, n: nat, text: string, result: string)
    requires t.Lawful()
  {
    if n == 0 then result == text else PassedTimes(t, n - 1, Pass(t, text), result)
  }

  lemma {:induction false} PassOnceMore(t: Template, n: nat, text: string, result: string)
    requires t.Lawful() && PassedTimes(t, n, text, result)
    ensures PassedTimes(t, n + 1, text, Pass(t, result))
  {
    if n > 0 { PassOnceMore(t, n - 1, Pass(t, text), result); }
  }

  /** Passes are repeated until one changes nothing. This ends for every text, and no block is left. */
  method ReplaceConditionals(t: Template, text: string) returns (result: string)
    requires t.Lawful()
    ensures t.find(result).NoBlock?
    ensures exists n: nat :: PassedTimes(t, n, text, result)
    ensures |result| <= |text|
  {
    result := text;
    ghost var n: nat := 0;
    while true
      invariant |result| <= |text| && PassedTimes(t, n, text, result)
      decreases |result|
    {
      var previous := result;
      PassShortens(t, previous);
      result := ReplaceOnce(t, previous);
      PassOnceMore(t, n, text, previous);
      n := n + 1;
      if result == previous { break; }
    }
  }
}
