/** How the parser moves: it always does, except in the one state of the list loop. */
module HclProgress {
  import opened Wrappers
  import opened HclSpec

  /** The cursor after one turn of the list loop that does not close the list. */
  function ListTurn(text: string, pos: nat): (next: Option<nat>)
    requires pos < |text|
  {
    match ParseValue(text, SkipSpace(text, pos))
    case Done(_, q) => Some(SkipComma(text, q))
    case _ => None
  }

  /**
   A turn of the list loop that does not close the list, and that gets through its value, moves
   the cursor forward, except when it looks at a closing brace: then, and only then, it reads
   an empty string and stands where it stood, so that the next turn is the same.
   */
  lemma ListTurnStallsAtBrace(text: string, pos: nat)
    requires pos < |text| && !At(text, SkipSpace(text, pos), ']') && ListTurn(text, pos).Some?
    ensures pos <= ListTurn(text, pos).value
    ensures ListTurn(text, pos).value == pos <==> text[pos] == '}'
    ensures text[pos] == '}' ==> ParseValue(text, pos) == Done(Str(""), pos)
  {
    var p := SkipSpace(text, pos);
    if text[pos] == '}' {
      assert text[pos..pos] == "";
      assert Classify("") == Str("");
    } else if p == pos && text[p] != '"' && text[p] != '[' && EndsScalar(text[p]) {
      assert At(text, p, ',');
    }
  }

  /** A parse that never ends does so at a closing brace. */
  lemma {:induction false} StuckValueAtBrace(text: string, pos: nat)
    requires ParseValue(text, pos).Stuck?
    ensures At(text, ParseValue(text, pos).pos, '}')
    decreases Left(text, pos), 0
  {
    StuckListAtBrace(text, SkipSpace(text, pos) + 1, []);
  }

  lemma {:induction false} StuckListAtBrace(text: string, pos: nat, items: seq<Val>)
    requires ParseList(text, pos, items).Stuck?
    ensures At(text, ParseList(text, pos, items).pos, '}')
    decreases Left(text, pos), 1
  {
    var p := SkipSpace(text, pos);
    if !At(text, p, '}') {
      var r := ParseValue(text, p);
      if r.Stuck? {
        StuckValueAtBrace(text, p);
      } else {
        StuckListAtBrace(text, SkipComma(text, r.pos), items + [r.value]);
      }
    }
  }

  lemma {:induction false} StuckBodyAtBrace(text: string, pos: nat, body: Fields)
    requires ParseBody(text, pos, body).Stuck?
    ensures At(text, ParseBody(text, pos, body).pos, '}')
    decreases Left(text, pos)
  {
    var p := SkipSpace(text, pos);
    var q := KeyEnd(text, p);
    var r := ParseField(text, q);
    if r.Done? {
      StuckBodyAtBrace(text, r.pos, body[KeyAt(text, p) := r.value]);
    } else if At(text, q, '=') {
      StuckValueAtBrace(text, SkipSpace(text, q + 1));
    } else {
      StuckBodyAtBrace(text, q + 1, map[]);
    }
  }

  lemma {:induction false} StuckAtBrace(text: string, pos: nat, ast: Ast)
    requires ParseBlocks(text, pos, ast).Stuck?
    ensures At(text, ParseBlocks(text, pos, ast).pos, '}')
    decreases Left(text, pos)
  {
    hide SkipSpace, IdentEnd, ParseBody;
    var p := SkipSpace(text, pos);
    var r := ParseBlock(text, p, ast);
    if r.Stuck? {
      StuckBodyAtBrace(text, NameEnd(text, KeyEnd(text, p)) + 1, map[]);
    } else {
      StuckAtBrace(text, r.pos, r.value);
    }
  }

  /** Without a closing brace every parse ends. */
  lemma NoBraceNoStall(text: string)
    requires '}' !in text
    ensures !Parse(text).Stuck?
  {
    if Parse(text).Stuck? {
      StuckAtBrace(text, 0, map[]);
    }
  }

  /** Such texts exist: whatever begins with a list that is closed by its block's brace. */
  lemma UnclosedListIsStuck(text: string)
    requires At(text, 0, '{') && At(text, 1, '=') && At(text, 2, '[') && At(text, 3, '}')
    ensures Parse(text) == Stuck(3)
  {
    assert ParseList(text, 3, []) == Stuck(3);
    assert ParseValue(text, 2) == Stuck(3);
    assert KeyEnd(text, 1) == 1;
    assert ParseBody(text, 1, map[]) == Stuck(3);
    assert KeyEnd(text, 0) == 0 && NameEnd(text, 0) == 0;
    assert ParseBlock(text, 0, map[]) == Stuck(3);
  }
}
