/** A printer for HCL documents, and the proof that parsing what it prints gives what they denote. */
module HclRoundTrip {
  import opened Decimal
  import opened HclSpec
  import opened HclLayout

  /* ----- Documents ----- */

  /** Values as they are written; a dotted scalar is a bare word with a dot in it. */
  datatype Expr = Quoted(raw: string) | Number(i: int) | Truth(b: bool, spelling: string) | Word(w: string)
                | Point(w: string) | Elements(items: seq<Element>, close: seq<Gap>)

  /** An element of a list: what stands before the value, behind it, and whether a comma follows. */
  datatype Element = Element(lead: seq<Gap>, value: Expr, tail: seq<Gap>, comma: bool)

  datatype Item = Field(lead: seq<Gap>, key: string, value: Expr) | Sub(lead: seq<Gap>, key: string, body: seq<Item>)

  /** A block type, a name that is empty when the block has none, and the body. */
  datatype Decl = Decl(lead: seq<Gap>, kind: string, name: string, body: seq<Item>)

  predicate IsNameChar(c: char) {
    'a' <= c <= 'z' || 'A' <= c <= 'Z' || '0' <= c <= '9' || c == '_' || c == '-'
  }

  predicate IsIdent(s: string) {
    s != "" && forall i :: 0 <= i < |s| ==> IsNameChar(s[i])
  }

  /** Raw text between quotes: every quote is escaped and no escape is left open. */
  predicate IsRaw(s: string) {
    s == "" || (if s[0] == '\\' then |s| >= 2 && IsRaw(s[2..]) else s[0] != '"' && IsRaw(s[1..]))
  }

  /** The same letters as the lower-case word t, each in either case. */
  predicate Spells(s: string, t: string) {
    |s| == |t| && forall i :: 0 <= i < |t| ==> s[i] == t[i] || s[i] as int + 32 == t[i] as int
  }

  /** A bare scalar: nothing in it ends a scalar, and it begins like nothing else. */
  predicate IsBare(w: string) {
    && w != "" && (forall i :: 0 <= i < |w| ==> w[i] !in " ,\r\n}#]")
    && w[0] !in "\"[\t" && !(|w| > 1 && w[0] == '/' && w[1] == '/')
  }

  /** A bare word: no dot, no truth value, no integer. */
  predicate IsWord(w: string) {
    IsBare(w) && '.' !in w && !Spells(w, "true") && !Spells(w, "false") && PyInt(w).None?
  }

  predicate ExprOk(e: Expr) {
    match e
    case Quoted(raw) => IsRaw(raw)
    case Truth(b, spelling) => Spells(spelling, if b then "true" else "false")
    case Word(w) => IsWord(w)
    case Point(w) => IsBare(w) && '.' in w
    case Elements(items, close) =>
      && LeadOk(close) && Separated(items, close)
      && forall i :: 0 <= i < |items| ==> LeadOk(items[i].lead) && TailOk(items[i].tail) && ExprOk(items[i].value)
    case _ => true
  }

  /** Behind a value stands something that ends a scalar: no tab, and no comment with slashes. */
  predicate TailOk(tail: seq<Gap>) {
    LeadOk(tail) &&
    (tail == [] ||
     match tail[0]
     case Blank(c) => c != '\t'
     case Remark(text) => text != "" && text[0] == '#')
  }

  /** Commas are optional where white space or a comment keeps the values apart. */
  predicate Separated(items: seq<Element>, close: seq<Gap>) {
    forall i :: 0 <= i < |items| ==>
      items[i].comma || items[i].tail != [] || (i == |items| - 1 && close == [])
  }

  predicate ItemOk(item: Item) {
    LeadOk(item.lead) && IsIdent(item.key) &&
    match item
    case Field(_, _, value) => ExprOk(value)
    case Sub(_, _, body) => forall i :: 0 <= i < |body| ==> ItemOk(body[i])
  }

  predicate BodyOk(body: seq<Item>) {
    forall i :: 0 <= i < |body| ==> ItemOk(body[i])
  }

  predicate DeclOk(d: Decl) {
    LeadOk(d.lead) && IsIdent(d.kind) && IsRaw(d.name) && BodyOk(d.body)
  }

  /* ----- Printing ----- */

  function PrintExpr(e: Expr): string {
    match e
    case Quoted(raw) => "\"" + raw + "\""
    case Number(i) => PrintInt(i)
    case Truth(_, spelling) => spelling
    case Word(w) => w
    case Point(w) => w
    case Elements(items, close) => "[" + (PrintElements(items) + (PrintLead(close) + "]"))
  }

  function PrintComma(comma: bool): string {
    if comma then "," else ""
  }

  function PrintElements(items: seq<Element>): string {
    if items == [] then []
    else
      var el := items[0];
      PrintLead(el.lead) + (PrintExpr(el.value) + (PrintLead(el.tail) + (PrintComma(el.comma) + PrintElements(items[1..]))))
  }

  /** An item without what stands in front of it. */
  function PrintBareItem(item: Item): string
    decreases item, 0
  {
    match item
    case Field(_, key, value) => key + " " + "=" + " " + PrintExpr(value) + "\n"
    case Sub(_, key, body) => key + " " + PrintBraces(body)
  }

  function PrintItem(item: Item): string
    decreases item, 1
  {
    PrintLead(item.lead) + PrintBareItem(item)
  }

  function PrintBraces(body: seq<Item>): string
    decreases body, 1
  {
    "{" + "\n" + (PrintBody(body) + "}") + "\n"
  }

  function PrintBody(body: seq<Item>): string
    decreases body, 0
  {
    if body == [] then [] else PrintItem(body[0]) + PrintBody(body[1..])
  }

  function PrintName(name: string): string {
    if name == "" then "" else "\"" + name + "\"" + " "
  }

  function PrintBareDecl(d: Decl): string {
    d.kind + " " + PrintName(d.name) + PrintBraces(d.body)
  }

  function PrintDecl(d: Decl): string {
    PrintLead(d.lead) + PrintBareDecl(d)
  }

  function PrintDocument(decls: seq<Decl>): string {
    if decls == [] then [] else PrintDecl(decls[0]) + PrintDocument(decls[1..])
  }

  /* ----- Meaning ----- */

  function ExprVal(e: Expr): Val {
    match e
    case Quoted(raw) => Str(raw)
    case Number(i) => Int(i)
    case Truth(b, _) => Bool(b)
    case Word(w) => Str(w)
    case Point(w) => Dotted(w)
    case Elements(items, _) => List(ElementVals(items))
  }

  function ElementVals(items: seq<Element>): seq<Val> {
    if items == [] then [] else [ExprVal(items[0].value)] + ElementVals(items[1..])
  }

  function ItemVal(item: Item): Val {
    match item
    case Field(_, _, value) => ExprVal(value)
    case Sub(_, _, body) => Block(BodyFields(body, map[]))
  }

  /** Later items of one key win. */
  function BodyFields(body: seq<Item>, fields: Fields): Fields {
    if body == [] then fields else BodyFields(body[1..], fields[body[0].key := ItemVal(body[0])])
  }

  function AddDecl(ast: Ast, d: Decl): Ast {
    AddBlock(ast, d.kind, d.name, BodyFields(d.body, map[]))
  }

  /** The first block of a type makes its dictionary; named blocks add their entry to it. */
  function DocumentAst(decls: seq<Decl>, ast: Ast): Ast {
    if decls == [] then ast else DocumentAst(decls[1..], AddDecl(ast, decls[0]))
  }

  lemma {:induction false} IdentScans(text: string, pos: nat, s: string)
    requires StandsAt(text, pos, s) && forall i :: 0 <= i < |s| ==> IsIdentChar(s[i])
    requires pos + |s| < |text| ==> !IsIdentChar(text[pos + |s|])
    ensures IdentEnd(text, pos) == pos + |s|
    decreases |s|
  {
    if s != "" {
      IdentScans(text, pos + 1, s[1..]);
    }
  }

  lemma {:induction false} ScalarScans(text: string, pos: nat, s: string)
    requires StandsAt(text, pos, s) && forall i :: 0 <= i < |s| ==> !EndsScalar(s[i])
    requires pos + |s| < |text| ==> EndsScalar(text[pos + |s|])
    ensures ScalarEnd(text, pos) == pos + |s|
    decreases |s|
  {
    if s != "" {
      ScalarScans(text, pos + 1, s[1..]);
    }
  }

  lemma {:induction false} RawScans(text: string, pos: nat, raw: string)
    requires IsRaw(raw) && StandsAt(text, pos, raw) && At(text, pos + |raw|, '"')
    ensures StringEnd(text, pos) == pos + |raw|
    decreases |raw|
  {
    if raw != "" {
      StandsChar(text, pos, raw, 0);
      var n := if raw[0] == '\\' then 2 else 1;
      assert raw == raw[..n] + raw[n..];
      StandsSplit(text, pos, raw[..n], raw[n..]);
      RawScans(text, pos + n, raw[n..]);
    }
  }

  lemma QuotedScans(text: string, pos: nat, raw: string)
    requires IsRaw(raw) && StandsAt(text, pos, "\"" + raw + "\"")
    ensures At(text, pos, '"') && StringEnd(text, pos + 1) == pos + |raw| + 1 && StringValue(text, pos) == raw
  {
    StandsChar(text, pos, "\"" + raw + "\"", 0);
    StandsSplit(text, pos, "\"" + raw, "\"");
    StandsSplit(text, pos, "\"", raw);
    StandsChar(text, pos + |raw| + 1, "\"", 0);
    RawScans(text, pos + 1, raw);
    StandsSlice(text, pos + 1, raw);
  }

  /* ----- Reading scalars back ----- */

  lemma PrintedIntClassifies(i: int)
    ensures Classify(PrintInt(i)) == Int(i)
  {
    var s := PrintInt(i);
    PrintedIntReads(i);
    assert Lower(s)[0] == LowerChar(s[0]) != 't' && LowerChar(s[0]) != 'f';
    assert '.' !in s;
  }

  lemma {:induction false} LowerAt(s: string)
    ensures |Lower(s)| == |s| && forall i :: 0 <= i < |s| ==> Lower(s)[i] == LowerChar(s[i])
    decreases |s|
  {
    if s != "" {
      LowerAt(s[1..]);
    }
  }

  lemma LowerSpells(s: string, t: string)
    requires forall i :: 0 <= i < |t| ==> 'a' <= t[i] <= 'z'
    ensures Lower(s) == t <==> Spells(s, t)
  {
    LowerAt(s);
  }

  lemma TruthClassifies(b: bool, spelling: string)
    requires Spells(spelling, if b then "true" else "false")
    ensures Classify(spelling) == Bool(b)
  {
    LowerSpells(spelling, "true");
    LowerSpells(spelling, "false");
  }

  /** What bare scalars read as: a word as itself, anything with a dot as a dotted scalar. */
  lemma BareClassifies(w: string)
    ensures IsWord(w) ==> Classify(w) == Str(w)
    ensures '.' in w ==> Classify(w) == Dotted(w)
  {
    LowerSpells(w, "true");
    LowerSpells(w, "false");
    if '.' in w {
      assert !Spells(w, "true") && !Spells(w, "false");
    }
  }

  ghost predicate ValueReads(text: string, pos: nat, v: Val, end: nat) {
    var r := ParseValue(text, pos);
    r.Done? && r.value == v && r.pos == end
  }

  ghost predicate ListReads(text: string, pos: nat, before: seq<Val>, items: seq<Val>, end: nat) {
    var r := ParseList(text, pos, before);
    r.Done? && r.value == List(before + items) && r.pos == end
  }

  /** A printed value begins at pos: no space, no comment, and no bracket that closes something. */
  ghost predicate Begins(text: string, pos: nat) {
    pos < |text| && !IsSpace(text[pos]) && !CommentAt(text, pos) && text[pos] != ']' && text[pos] != '}'
  }

  /** Something that ends a scalar stands at pos, as it does behind every printed value. */
  ghost predicate Ends(text: string, pos: nat) {
    pos < |text| && EndsScalar(text[pos])
  }

  lemma WordBegins(text: string, pos: nat, w: string)
    requires IsBare(w) && StandsAt(text, pos, w) && Ends(text, pos + |w|)
    ensures Begins(text, pos)
  {
    StandsChar(text, pos, w, 0);
    if |w| > 1 {
      StandsChar(text, pos, w, 1);
    }
  }

  lemma PrintedBegins(text: string, pos: nat, e: Expr)
    requires ExprOk(e) && StandsAt(text, pos, PrintExpr(e)) && Ends(text, pos + |PrintExpr(e)|)
    ensures Begins(text, pos) && text[pos] != ','
  {
    StandsChar(text, pos, PrintExpr(e), 0);
    if e.Word? || e.Point? {
      WordBegins(text, pos, e.w);
    }
  }

  lemma ScalarValue(text: string, pos: nat)
    requires Begins(text, pos) && text[pos] != '"' && text[pos] != '['
    ensures ValueReads(text, pos, Classify(text[pos..ScalarEnd(text, pos)]), ScalarEnd(text, pos))
  {
  }

  lemma ScalarReads(text: string, pos: nat, s: string, v: Val)
    requires s != "" && StandsAt(text, pos, s) && Ends(text, pos + |s|) && Begins(text, pos)
    requires (forall i :: 0 <= i < |s| ==> !EndsScalar(s[i])) && s[0] != '"' && s[0] != '[' && Classify(s) == v
    ensures ValueReads(text, pos, v, pos + |s|)
  {
    StandsChar(text, pos, s, 0);
    ScalarValue(text, pos);
    ScalarScans(text, pos, s);
    StandsSlice(text, pos, s);
  }

  lemma QuotedReads(text: string, pos: nat, raw: string)
    requires IsRaw(raw) && StandsAt(text, pos, "\"" + raw + "\"")
    ensures ValueReads(text, pos, Str(raw), pos + |raw| + 2)
  {
    QuotedScans(text, pos, raw);
  }

  /** Parsing a printed value gives what it denotes and stops right behind it. */
  lemma {:induction false} ExprReads(text: string, pos: nat, e: Expr)
    requires ExprOk(e) && StandsAt(text, pos, PrintExpr(e)) && Ends(text, pos + |PrintExpr(e)|)
    ensures ValueReads(text, pos, ExprVal(e), pos + |PrintExpr(e)|)
    decreases e, 0
  {
    hide StandsAt, ParseValue, ParseList, PrintInt, PrintElements, PrintLead, ElementVals;
    match e
    case Quoted(raw) => QuotedReads(text, pos, raw);
    case Number(i) => NumberReads(text, pos, i);
    case Truth(b, spelling) => TruthReads(text, pos, b, spelling);
    case Word(w) => WordReads(text, pos, w, Str(w));
    case Point(w) => WordReads(text, pos, w, Dotted(w));
    case Elements(items, close) => BracketsRead(text, pos, items, close);
  }

  lemma PlainNumber(i: int)
    ensures forall k :: 0 <= k < |PrintInt(i)| ==> !EndsScalar(PrintInt(i)[k])
    ensures PrintInt(i)[0] != '"' && PrintInt(i)[0] != '['
  {
  }

  lemma NumberReads(text: string, pos: nat, i: int)
    requires StandsAt(text, pos, PrintInt(i)) && Ends(text, pos + |PrintInt(i)|)
    ensures ValueReads(text, pos, Int(i), pos + |PrintInt(i)|)
  {
    PrintedBegins(text, pos, Number(i));
    PrintedIntClassifies(i);
    PlainNumber(i);
    ScalarReads(text, pos, PrintInt(i), Int(i));
  }

  lemma TruthIsBare(b: bool, spelling: string)
    requires Spells(spelling, if b then "true" else "false")
    ensures IsBare(spelling)
  {
  }

  lemma TruthReads(text: string, pos: nat, b: bool, spelling: string)
    requires Spells(spelling, if b then "true" else "false")
    requires StandsAt(text, pos, spelling) && Ends(text, pos + |spelling|)
    ensures ValueReads(text, pos, Bool(b), pos + |spelling|)
  {
    TruthClassifies(b, spelling);
    TruthIsBare(b, spelling);
    WordBegins(text, pos, spelling);
    ScalarReads(text, pos, spelling, Bool(b));
  }

  lemma WordReads(text: string, pos: nat, w: string, v: Val)
    requires IsBare(w) && ((IsWord(w) && v == Str(w)) || ('.' in w && v == Dotted(w)))
    requires StandsAt(text, pos, w) && Ends(text, pos + |w|)
    ensures ValueReads(text, pos, v, pos + |w|)
  {
    BareClassifies(w);
    WordBegins(text, pos, w);
    ScalarReads(text, pos, w, v);
  }

  lemma {:induction false} BracketsRead(text: string, pos: nat, items: seq<Element>, close: seq<Gap>)
    requires ListOk(items, close)
    requires StandsAt(text, pos, "[" + (PrintElements(items) + (PrintLead(close) + "]")))
    ensures ValueReads(text, pos, List(ElementVals(items)), pos + |PrintElements(items)| + |PrintLead(close)| + 2)
    decreases items, 1
  {
    hide StandsAt, ParseList, PrintElements, PrintLead;
    StandsSplit(text, pos, "[", PrintElements(items) + (PrintLead(close) + "]"));
    StandsChar(text, pos, "[", 0);
    ElementsRead(text, pos + 1, items, close, []);
    ListIsValue(text, pos, ElementVals(items), pos + |PrintElements(items)| + |PrintLead(close)| + 2);
  }

  lemma ListIsValue(text: string, pos: nat, items: seq<Val>, end: nat)
    requires At(text, pos, '[') && ListReads(text, pos + 1, [], items, end)
    ensures ValueReads(text, pos, List(items), end)
  {
    assert [] + items == items;
  }

  /* ----- Lists ----- */

  ghost predicate ElementOk(el: Element) {
    LeadOk(el.lead) && TailOk(el.tail) && ExprOk(el.value)
  }

  ghost predicate ListOk(items: seq<Element>, close: seq<Gap>) {
    LeadOk(close) && Separated(items, close) && forall i :: 0 <= i < |items| ==> ElementOk(items[i])
  }

  lemma ListCloses(text: string, pos: nat, before: seq<Val>)
    requires At(text, pos, ']')
    ensures ListReads(text, pos, before, [], pos + 1)
  {
    assert before + [] == before;
  }

  lemma ListTakes(text: string, pos: nat, before: seq<Val>, v: Val, mid: nat, items: seq<Val>, end: nat)
    requires Begins(text, pos) && ValueReads(text, pos, v, mid)
    requires ListReads(text, SkipComma(text, mid), before + [v], items, end)
    ensures ListReads(text, pos, before, [v] + items, end)
  {
    assert before + [v] + items == before + ([v] + items);
  }

  lemma ListSkips(text: string, pos: nat, mid: nat, before: seq<Val>, items: seq<Val>, end: nat)
    requires pos < |text| && mid < |text| && SkipSpace(text, pos) == SkipSpace(text, mid)
    requires ListReads(text, mid, before, items, end)
    ensures ListReads(text, pos, before, items, end)
  {
  }

  lemma SkipTwice(text: string, pos: nat)
    ensures SkipSpace(text, SkipSpace(text, pos)) == SkipSpace(text, pos)
  {
  }

  /** Behind a value, over what follows it, with a comma or without. */
  lemma SkipsToNext(text: string, mid: nat, back: nat, comma: bool, before: seq<Val>, vals: seq<Val>, end: nat)
    requires SkipSpace(text, mid) == SkipSpace(text, back) && back < |text|
    requires if comma then At(text, back, ',') && ListReads(text, back + 1, before, vals, end)
             else ListReads(text, back, before, vals, end) && !At(text, SkipSpace(text, back), ',')
                  && SkipSpace(text, back) < |text|
    ensures ListReads(text, SkipComma(text, mid), before, vals, end)
  {
    hide ParseList, SkipSpace;
    if comma {
      StaysPut(text, back);
    } else {
      SkipTwice(text, back);
      ListSkips(text, SkipSpace(text, back), back, before, vals, end);
    }
  }

  lemma StaysPut(text: string, pos: nat)
    requires pos < |text| && !IsSpace(text[pos]) && !CommentAt(text, pos)
    ensures SkipSpace(text, pos) == pos
  {
  }

  lemma TailEnds(text: string, pos: nat, tail: seq<Gap>)
    requires TailOk(tail) && tail != [] && StandsAt(text, pos, PrintLead(tail))
    ensures Ends(text, pos)
  {
    assert PrintLead(tail) == PrintGap(tail[0]) + PrintLead(tail[1..]);
    StandsChar(text, pos, PrintLead(tail), 0);
  }

  /** The parts of a list's first element and what follows it. */
  ghost predicate FirstStands(text: string, pos: nat, el: Element, rest: string) {
    var start := pos + |PrintLead(el.lead)|;
    var mid := start + |PrintExpr(el.value)|;
    var back := mid + |PrintLead(el.tail)|;
    && StandsAt(text, pos, PrintLead(el.lead)) && StandsAt(text, start, PrintExpr(el.value))
    && StandsAt(text, mid, PrintLead(el.tail)) && StandsAt(text, back, PrintComma(el.comma))
    && StandsAt(text, back + |PrintComma(el.comma)|, rest)
  }

  lemma FiveStand(text: string, pos: nat, a: string, b: string, c: string, d: string, e: string)
    requires StandsAt(text, pos, a + (b + (c + (d + e))))
    ensures StandsAt(text, pos, a) && StandsAt(text, pos + |a|, b) && StandsAt(text, pos + |a| + |b|, c)
    ensures StandsAt(text, pos + |a| + |b| + |c|, d) && StandsAt(text, pos + |a| + |b| + |c| + |d|, e)
  {
    hide StandsAt;
    StandsSplit(text, pos, a, b + (c + (d + e)));
    StandsSplit(text, pos + |a|, b, c + (d + e));
    StandsSplit(text, pos + |a| + |b|, c, d + e);
    StandsSplit(text, pos + |a| + |b| + |c|, d, e);
  }

  lemma Regroup(a: string, b: string, c: string, d: string, e: string, f: string)
    ensures a + (b + (c + (d + e))) + f == a + (b + (c + (d + (e + f))))
  {
  }

  lemma FirstElementStands(text: string, pos: nat, items: seq<Element>, close: string)
    requires items != [] && StandsAt(text, pos, PrintElements(items) + close)
    ensures FirstStands(text, pos, items[0], PrintElements(items[1..]) + close)
    ensures StandsAt(text, pos + |PrintLead(items[0].lead)| + |PrintExpr(items[0].value)| + |PrintLead(items[0].tail)|
                           + |PrintComma(items[0].comma)|, PrintElements(items[1..]) + close)
    ensures |PrintElements(items)| == |PrintLead(items[0].lead)| + |PrintExpr(items[0].value)| + |PrintLead(items[0].tail)|
                                      + |PrintComma(items[0].comma)| + |PrintElements(items[1..])|
  {
    hide StandsAt, PrintLead, PrintExpr, PrintComma;
    var el := items[0];
    var a, b, c, d, e := PrintLead(el.lead), PrintExpr(el.value), PrintLead(el.tail), PrintComma(el.comma),
                         PrintElements(items[1..]);
    Regroup(a, b, c, d, e, close);
    FiveStand(text, pos, a, b, c, d, e + close);
  }

  /** Where the rest of a list is entered there is no comma. */
  lemma RestBegins(text: string, pos: nat, items: seq<Element>, close: seq<Gap>)
    requires ListOk(items, close) && StandsAt(text, pos, PrintElements(items) + (PrintLead(close) + "]"))
    ensures pos < |text| && SkipSpace(text, pos) < |text| && !At(text, SkipSpace(text, pos), ',')
  {
    hide StandsAt, PrintElements, PrintLead, PrintExpr, SkipSpace;
    if items == [] {
      CloseStands(text, pos, items, close);
    } else {
      var el := items[0];
      FirstElementStands(text, pos, items, PrintLead(close) + "]");
      EndsBehind(text, pos, items, close);
      LeadSkips(text, pos, el.lead);
      PrintedBegins(text, pos + |PrintLead(el.lead)|, el.value);
      StaysPut(text, pos + |PrintLead(el.lead)|);
    }
  }

  lemma CloseStands(text: string, pos: nat, items: seq<Element>, close: seq<Gap>)
    requires items == [] && LeadOk(close) && StandsAt(text, pos, PrintElements(items) + (PrintLead(close) + "]"))
    ensures SkipSpace(text, pos) == pos + |PrintLead(close)| && At(text, pos + |PrintLead(close)|, ']')
  {
    hide StandsAt, SkipSpace, PrintLead;
    assert PrintElements(items) + (PrintLead(close) + "]") == PrintLead(close) + "]";
    StandsSplit(text, pos, PrintLead(close), "]");
    StandsChar(text, pos + |PrintLead(close)|, "]", 0);
    LeadSkips(text, pos, close);
    StaysPut(text, pos + |PrintLead(close)|);
  }

  lemma EndsHere(text: string, mid: nat, tail: seq<Gap>, comma: bool, rest: string)
    requires TailOk(tail) && StandsAt(text, mid, PrintLead(tail))
    requires StandsAt(text, mid + |PrintLead(tail)|, PrintComma(comma))
    requires StandsAt(text, mid + |PrintLead(tail)| + |PrintComma(comma)|, rest)
    requires tail != [] || comma || rest == "]"
    ensures Ends(text, mid)
  {
    hide StandsAt, PrintGap;
    if tail != [] {
      TailEnds(text, mid, tail);
    } else {
      StandsChar(text, mid, if comma then "," else "]", 0);
    }
  }

  /** Behind the value of the first element stands something that ends a scalar. */
  lemma EndsBehind(text: string, pos: nat, items: seq<Element>, close: seq<Gap>)
    requires items != [] && ListOk(items, close)
    requires FirstStands(text, pos, items[0], PrintElements(items[1..]) + (PrintLead(close) + "]"))
    ensures Ends(text, pos + |PrintLead(items[0].lead)| + |PrintExpr(items[0].value)|)
  {
    hide StandsAt, PrintExpr, PrintGap;
    var el, rest := items[0], PrintElements(items[1..]) + (PrintLead(close) + "]");
    assert el.tail != [] || el.comma || rest == "]" by {
      hide FirstStands;
    }
    EndsHere(text, pos + |PrintLead(el.lead)| + |PrintExpr(el.value)|, el.tail, el.comma, rest);
  }

  lemma {:induction false} FirstElementReads(text: string, pos: nat, el: Element, rest: string, before: seq<Val>,
                                             vals: seq<Val>, end: nat)
    requires ElementOk(el) && FirstStands(text, pos, el, rest)
    requires var mid := pos + |PrintLead(el.lead)| + |PrintExpr(el.value)|;
             var next := mid + |PrintLead(el.tail)| + |PrintComma(el.comma)|;
             && Ends(text, mid) && ListReads(text, next, before + [ExprVal(el.value)], vals, end)
             && next < |text| && SkipSpace(text, next) < |text| && !At(text, SkipSpace(text, next), ',')
    ensures ListReads(text, pos, before, [ExprVal(el.value)] + vals, end)
    decreases el, 1
  {
    hide ParseValue, ParseList, PrintExpr, PrintLead, ExprVal, SkipSpace;
    var start := pos + |PrintLead(el.lead)|;
    var mid := start + |PrintExpr(el.value)|;
    var back := mid + |PrintLead(el.tail)|;
    LeadSkips(text, pos, el.lead);
    LeadSkips(text, mid, el.tail);
    PrintedBegins(text, start, el.value);
    ExprReads(text, start, el.value);
    if el.comma {
      StandsChar(text, back, ",", 0);
    }
    SkipsToNext(text, mid, back, el.comma, before + [ExprVal(el.value)], vals, end);
    ListTakes(text, start, before, ExprVal(el.value), mid, vals, end);
    ListSkips(text, pos, start, before, [ExprVal(el.value)] + vals, end);
  }

  lemma {:induction false} ElementsRead(text: string, pos: nat, items: seq<Element>, close: seq<Gap>, before: seq<Val>)
    requires ListOk(items, close) && StandsAt(text, pos, PrintElements(items) + (PrintLead(close) + "]"))
    ensures ListReads(text, pos, before, ElementVals(items), pos + |PrintElements(items)| + |PrintLead(close)| + 1)
    decreases items, 0
  {
    hide StandsAt, ParseList, PrintLead, PrintExpr, PrintComma, SkipSpace, FirstStands;
    if items == [] {
      CloseStands(text, pos, items, close);
      ListCloses(text, pos + |PrintLead(close)|, before);
      SkipTwice(text, pos);
      ListSkips(text, pos, pos + |PrintLead(close)|, before, [], pos + |PrintLead(close)| + 1);
    } else {
      var el := items[0];
      var next := pos + |PrintLead(el.lead)| + |PrintExpr(el.value)| + |PrintLead(el.tail)| + |PrintComma(el.comma)|;
      FirstElementStands(text, pos, items, PrintLead(close) + "]");
      EndsBehind(text, pos, items, close);
      RestBegins(text, next, items[1..], close);
      ElementsRead(text, next, items[1..], close, before + [ExprVal(el.value)]);
      FirstElementReads(text, pos, el, PrintElements(items[1..]) + (PrintLead(close) + "]"), before,
                        ElementVals(items[1..]), next + |PrintElements(items[1..])| + |PrintLead(close)| + 1);
    }
  }
}
