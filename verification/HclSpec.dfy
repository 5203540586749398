/**
 The HCL parser as functions of the text and a position.

 Every parse ends in one of three ways: with a value and a new position, with the ValueError of
 the source, or in the one state of the list loop that never moves on.
 */
module HclSpec {
  import opened Decimal

  /** Values of the resulting dictionaries.  Dotted stands for float(raw), or raw when that fails. */
  datatype Val = NoValue | Str(s: string) | Int(i: int) | Bool(b: bool) | Dotted(raw: string)
               | List(items: seq<Val>) | Block(fields: Fields)

  type Fields = map<string, Val>
  type Ast = map<string, Fields>

  datatype Parsed<+T> = Done(value: T, pos: nat) | Raised(pos: nat) | Stuck(pos: nat)

  /* ----- Characters ----- */

  predicate IsSpace(c: char) {
    c in " \t\r\n"
  }

  predicate IsAlnum(c: char) {
    IsDigit(c) || 'a' <= c <= 'z' || 'A' <= c <= 'Z'
  }

  predicate IsIdentChar(c: char) {
    IsAlnum(c) || c in "_-"
  }

  /** The characters that end an unquoted scalar; tabs and slashes are not among them. */
  predicate EndsScalar(c: char) {
    c in " ,\r\n}#]"
  }

  predicate At(text: string, pos: nat, c: char) {
    pos < |text| && text[pos] == c
  }

  predicate CommentAt(text: string, pos: nat) {
    At(text, pos, '#') || (At(text, pos, '/') && At(text, pos + 1, '/'))
  }

  /** How much of the text is left; the cursor can stand behind the end. */
  function Left(text: string, pos: nat): nat {
    if pos <= |text| then |text| - pos else 0
  }

  /* ----- Scanning ----- */

  function SkipComment(text: string, pos: nat): (p: nat)
    ensures pos <= p && (pos < |text| ==> p <= |text|)
    ensures At(text, pos, '#') || At(text, pos, '/') ==> pos < p
    decreases Left(text, pos)
  {
    if pos < |text| && text[pos] != '\n' then SkipComment(text, pos + 1) else pos
  }

  function SkipSpace(text: string, pos: nat): (p: nat)
    ensures pos <= p && (pos <= |text| ==> p <= |text|) && (pos >= |text| ==> p == pos)
    ensures p < |text| ==> !IsSpace(text[p]) && !CommentAt(text, p)
    decreases Left(text, pos)
  {
    if pos >= |text| then pos
    else if IsSpace(text[pos]) then SkipSpace(text, pos + 1)
    else if CommentAt(text, pos) then SkipSpace(text, SkipComment(text, pos))
    else pos
  }

  function IdentEnd(text: string, pos: nat): (p: nat)
    ensures pos <= p && (pos <= |text| ==> p <= |text|)
    decreases Left(text, pos)
  {
    if pos < |text| && IsIdentChar(text[pos]) then IdentEnd(text, pos + 1) else pos
  }

  /** The closing quote, or a place at or just behind the end when there is none. */
  function StringEnd(text: string, pos: nat): (p: nat)
    ensures pos <= p && (pos <= |text| ==> p <= |text| + 1)
    decreases Left(text, pos)
  {
    if pos >= |text| || text[pos] == '"' then pos
    else if text[pos] == '\\' then StringEnd(text, pos + 2)
    else StringEnd(text, pos + 1)
  }

  /** The raw text between quotes, escapes kept as they stand. */
  function StringValue(text: string, pos: nat): string
    requires pos < |text|
  {
    var end := StringEnd(text, pos + 1);
    if end <= |text| then text[pos + 1..end] else text[pos + 1..]
  }

  function ScalarEnd(text: string, pos: nat): (p: nat)
    ensures pos <= p && (pos <= |text| ==> p <= |text|)
    ensures pos < |text| && !EndsScalar(text[pos]) ==> pos < p
    decreases Left(text, pos)
  {
    if pos < |text| && !EndsScalar(text[pos]) then ScalarEnd(text, pos + 1) else pos
  }

  /* ----- Scalars ----- */

  function LowerChar(c: char): char {
    if 'A' <= c <= 'Z' then 'a' + (c - 'A') else c
  }

  function Lower(s: string): string {
    if s == [] then [] else [LowerChar(s[0])] + Lower(s[1..])
  }

  function Classify(raw: string): Val {
    if Lower(raw) == "true" then Bool(true)
    else if Lower(raw) == "false" then Bool(false)
    else if '.' in raw then Dotted(raw)
    else
      match PyInt(raw)
      case Some(i) => Int(i)
      case None => Str(raw)
  }

  /* ----- Parsing ----- */

  function ParseValue(text: string, pos: nat): (r: Parsed<Val>)
    ensures pos <= r.pos
    ensures pos < |text| && SkipSpace(text, pos) == pos && !EndsScalar(text[pos]) ==> pos < r.pos
    decreases Left(text, pos), 0
  {
    var p := SkipSpace(text, pos);
    if p >= |text| then Done(NoValue, p)
    else if text[p] == '"' then Done(Str(StringValue(text, p)), StringEnd(text, p + 1) + 1)
    else if text[p] == '[' then ParseList(text, p + 1, [])
    else
      var end := ScalarEnd(text, p);
      Done(Classify(text[p..end]), end)
  }

  /** Where the list loop continues behind a value: over spaces and one comma. */
  function SkipComma(text: string, pos: nat): (p: nat)
    ensures pos <= p && (At(text, pos, ',') ==> pos < p)
  {
    var p := SkipSpace(text, pos);
    if At(text, p, ',') then p + 1 else p
  }

  function ParseList(text: string, pos: nat, items: seq<Val>): (r: Parsed<Val>)
    ensures pos <= r.pos
    decreases Left(text, pos), 1
  {
    if pos >= |text| then Done(List(items), pos)
    else
      var p := SkipSpace(text, pos);
      if At(text, p, ']') then Done(List(items), p + 1)
      else if At(text, p, '}') then Stuck(p)
      else
        match ParseValue(text, p)
        case Raised(q) => Raised(q)
        case Stuck(q) => Stuck(q)
        case Done(v, q) => ParseList(text, SkipComma(text, q), items + [v])
  }

  /** The identifier at p, possibly empty, and where the space behind it ends. */
  function KeyAt(text: string, p: nat): string
    requires p <= |text|
  {
    text[p..IdentEnd(text, p)]
  }

  function KeyEnd(text: string, p: nat): (q: nat)
    ensures p <= q
  {
    SkipSpace(text, IdentEnd(text, p))
  }

  /** What follows a key: a value behind an equals sign, or a block. */
  function ParseField(text: string, q: nat): (r: Parsed<Val>)
    ensures q <= r.pos && (r.Done? ==> q < r.pos && q < |text|)
    decreases Left(text, q), 2
  {
    if At(text, q, '=') then ParseValue(text, SkipSpace(text, q + 1))
    else if At(text, q, '{') then
      match ParseBody(text, q + 1, map[])
      case Raised(at) => Raised(at)
      case Stuck(at) => Stuck(at)
      case Done(sub, at) => Done(Block(sub), at)
    else Raised(q)
  }

  function ParseBody(text: string, pos: nat, body: Fields): (r: Parsed<Fields>)
    ensures pos <= r.pos
    decreases Left(text, pos), 3
  {
    if pos >= |text| then Done(body, pos)
    else
      var p := SkipSpace(text, pos);
      if p >= |text| then Done(body, p)
      else if text[p] == '}' then Done(body, p + 1)
      else
        var key := KeyAt(text, p);
        match ParseField(text, KeyEnd(text, p))
        case Raised(at) => Raised(at)
        case Stuck(at) => Stuck(at)
        case Done(v, at) => ParseBody(text, at, body[key := v])
  }

  /** What one block adds: the first of a type makes its dictionary, a name adds an entry to it. */
  function AddBlock(ast: Ast, kind: string, name: string, body: Fields): Ast {
    var made := if kind in ast then ast else ast[kind := if name != "" then map[] else body];
    if name != "" then made[kind := made[kind][name := Block(body)]] else made
  }

  /** The quoted name at q, empty when there is none, and where the space behind it ends. */
  function NameAt(text: string, q: nat): string {
    if At(text, q, '"') then StringValue(text, q) else ""
  }

  function NameEnd(text: string, q: nat): (open: nat)
    ensures q <= open
  {
    if At(text, q, '"') then SkipSpace(text, StringEnd(text, q + 1) + 1) else q
  }

  function WithBlock(ast: Ast, kind: string, name: string, body: Parsed<Fields>): (r: Parsed<Ast>)
    ensures r.pos == body.pos && (r.Done? <==> body.Done?)
  {
    match body
    case Raised(at) => Raised(at)
    case Stuck(at) => Stuck(at)
    case Done(fields, at) => Done(AddBlock(ast, kind, name, fields), at)
  }

  /** The braces behind a block's type and name. */
  function ParseBraces(text: string, open: nat, ast: Ast, kind: string, name: string): (r: Parsed<Ast>)
    ensures open <= r.pos && (r.Done? ==> open < r.pos)
  {
    if At(text, open, '{') then WithBlock(ast, kind, name, ParseBody(text, open + 1, map[])) else Raised(open)
  }

  /** One block added to the blocks read so far. */
  function ParseBlock(text: string, p: nat, ast: Ast): (r: Parsed<Ast>)
    requires p <= |text|
    ensures p <= r.pos && (r.Done? ==> p < r.pos)
  {
    var q := KeyEnd(text, p);
    ParseBraces(text, NameEnd(text, q), ast, KeyAt(text, p), NameAt(text, q))
  }

  function ParseBlocks(text: string, pos: nat, ast: Ast): (r: Parsed<Ast>)
    ensures pos <= r.pos
    decreases Left(text, pos)
  {
    if pos >= |text| then Done(ast, pos)
    else
      var p := SkipSpace(text, pos);
      if p >= |text| then Done(ast, p)
      else
        match ParseBlock(text, p, ast)
        case Raised(at) => Raised(at)
        case Stuck(at) => Stuck(at)
        case Done(more, at) => ParseBlocks(text, at, more)
  }

  function Parse(text: string): Parsed<Ast> {
    ParseBlocks(text, 0, map[])
  }
}
