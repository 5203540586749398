/** The round trip of whole documents, and how the parser moves. */
module HclDocuments {
  import opened HclSpec
  import opened HclRoundTrip
  import opened HclLayout

  /* ----- Keys ----- */

  ghost predicate FieldReads(text: string, q: nat, v: Val, end: nat) {
    var r := ParseField(text, q);
    r.Done? && r.value == v && r.pos == end
  }

  ghost predicate BodyReads(text: string, pos: nat, before: Fields, after: Fields, end: nat) {
    var r := ParseBody(text, pos, before);
    r.Done? && r.value == after && r.pos == end
  }

  /** An identifier stands at pos and c behind the space that follows it. */
  ghost predicate KeyStands(text: string, pos: nat, key: string, c: char) {
    && Begins(text, pos)
    && KeyAt(text, pos) == key
    && KeyEnd(text, pos) == pos + |key| + 1
    && At(text, pos + |key| + 1, c)
  }

  lemma KeyReads(text: string, pos: nat, key: string, c: char)
    requires IsIdent(key) && c in "={\"" && StandsAt(text, pos, key) && At(text, pos + |key|, ' ')
    requires At(text, pos + |key| + 1, c)
    ensures KeyStands(text, pos, key, c)
  {
    StandsChar(text, pos, key, 0);
    IdentScans(text, pos, key);
    StandsSlice(text, pos, key);
    assert SkipSpace(text, pos + |key| + 1) == pos + |key| + 1;
  }

  /* ----- Bodies ----- */

  lemma BodyCloses(text: string, pos: nat, before: Fields)
    requires At(text, pos, '}')
    ensures BodyReads(text, pos, before, before, pos + 1)
  {
  }

  lemma BodySkipsNewline(text: string, pos: nat, before: Fields, after: Fields, end: nat)
    requires At(text, pos, '\n') && pos + 1 < |text| && BodyReads(text, pos + 1, before, after, end)
    ensures BodyReads(text, pos, before, after, end)
  {
  }

  /** A field that is read takes the body behind it. */
  lemma BodyGoesOn(text: string, pos: nat, before: Fields)
    requires Begins(text, pos)
    ensures var r := ParseField(text, KeyEnd(text, pos));
            r.Done? ==> ParseBody(text, pos, before) == ParseBody(text, r.pos, before[KeyAt(text, pos) := r.value])
  {
  }

  lemma BodyTakes(text: string, pos: nat, before: Fields, key: string, c: char, v: Val, mid: nat, after: Fields, end: nat)
    requires KeyStands(text, pos, key, c) && FieldReads(text, pos + |key| + 1, v, mid)
    requires BodyReads(text, mid, before[key := v], after, end)
    ensures BodyReads(text, pos, before, after, end)
  {
    BodyGoesOn(text, pos, before);
  }

  lemma ValueField(text: string, q: nat, v: Val, end: nat)
    requires At(text, q, '=') && At(text, q + 1, ' ') && Begins(text, q + 2) && ValueReads(text, q + 2, v, end)
    ensures FieldReads(text, q, v, end)
  {
  }

  lemma BlockField(text: string, q: nat, fields: Fields, end: nat)
    requires At(text, q, '{') && BodyReads(text, q + 1, map[], fields, end)
    ensures FieldReads(text, q, Block(fields), end)
  {
  }

  lemma FieldSplits(text: string, pos: nat, key: string, value: string)
    requires StandsAt(text, pos, key + " " + "=" + " " + value + "\n")
    ensures StandsAt(text, pos, key) && At(text, pos + |key|, ' ')
    ensures At(text, pos + |key| + 1, '=') && At(text, pos + |key| + 2, ' ')
    ensures StandsAt(text, pos + |key| + 3, value) && At(text, pos + |key| + 3 + |value|, '\n')
  {
    StandsSplit(text, pos, key + " " + "=" + " " + value, "\n");
    StandsSplit(text, pos, key + " " + "=" + " ", value);
    StandsSplit(text, pos, key + " " + "=", " ");
    StandsSplit(text, pos, key + " ", "=");
    StandsSplit(text, pos, key, " ");
  }

  lemma FieldValueReads(text: string, q: nat, value: Expr)
    requires At(text, q, '=') && At(text, q + 1, ' ')
    requires ExprOk(value) && StandsAt(text, q + 2, PrintExpr(value)) && At(text, q + 2 + |PrintExpr(value)|, '\n')
    ensures FieldReads(text, q, ExprVal(value), q + 2 + |PrintExpr(value)|)
  {
    hide StandsAt, ParseValue, ParseField, PrintExpr, ExprVal;
    PrintedBegins(text, q + 2, value);
    ExprReads(text, q + 2, value);
    ValueField(text, q, ExprVal(value), q + 2 + |PrintExpr(value)|);
  }

  /** The field of a key is read, and the body goes on behind the line break. */
  lemma BodyTakesLine(text: string, pos: nat, before: Fields, key: string, c: char, v: Val, mid: nat, after: Fields, end: nat)
    requires KeyStands(text, pos, key, c) && FieldReads(text, pos + |key| + 1, v, mid) && At(text, mid, '\n')
    requires mid + 1 < |text| && BodyReads(text, mid + 1, before[key := v], after, end)
    ensures BodyReads(text, pos, before, after, end)
  {
    BodySkipsNewline(text, mid, before[key := v], after, end);
    BodyTakes(text, pos, before, key, c, v, mid, after, end);
  }

  ghost predicate FieldStands(text: string, pos: nat, key: string, value: Expr) {
    StandsAt(text, pos, key + " " + "=" + " " + PrintExpr(value) + "\n")
  }

  lemma FieldKey(text: string, pos: nat, key: string, value: Expr)
    requires IsIdent(key) && FieldStands(text, pos, key, value)
    ensures KeyStands(text, pos, key, '=')
  {
    FieldSplits(text, pos, key, PrintExpr(value));
    KeyReads(text, pos, key, '=');
  }

  lemma FieldValue(text: string, pos: nat, key: string, value: Expr, mid: nat)
    requires IsIdent(key) && ExprOk(value) && FieldStands(text, pos, key, value)
    requires mid == pos + |key| + 3 + |PrintExpr(value)|
    ensures FieldReads(text, pos + |key| + 1, ExprVal(value), mid) && At(text, mid, '\n')
  {
    hide StandsAt, PrintExpr, ExprVal, ParseField;
    FieldSplits(text, pos, key, PrintExpr(value));
    FieldKey(text, pos, key, value);
    FieldValueReads(text, pos + |key| + 1, value);
  }

  lemma FieldItemReads(text: string, pos: nat, key: string, value: Expr, mid: nat, before: Fields, after: Fields, end: nat)
    requires IsIdent(key) && ExprOk(value) && FieldStands(text, pos, key, value)
    requires mid == pos + |key| + 3 + |PrintExpr(value)| && mid + 1 < |text|
    requires BodyReads(text, mid + 1, before[key := ExprVal(value)], after, end)
    ensures BodyReads(text, pos, before, after, end)
  {
    FieldKey(text, pos, key, value);
    FieldValue(text, pos, key, value, mid);
    BodyTakesLine(text, pos, before, key, '=', ExprVal(value), mid, after, end);
  }

  lemma BracesSplit(text: string, pos: nat, body: string)
    requires StandsAt(text, pos, "{" + "\n" + (body + "}") + "\n")
    ensures At(text, pos, '{') && At(text, pos + 1, '\n')
    ensures StandsAt(text, pos + 2, body + "}") && At(text, pos + 3 + |body|, '\n')
  {
    StandsSplit(text, pos, "{" + "\n" + (body + "}"), "\n");
    StandsSplit(text, pos, "{" + "\n", body + "}");
    StandsSplit(text, pos, "{", "\n");
  }

  lemma BracesStand(text: string, q: nat, body: seq<Item>)
    requires StandsAt(text, q, PrintBraces(body))
    ensures At(text, q, '{') && At(text, q + 1, '\n')
    ensures StandsAt(text, q + 2, PrintBody(body) + "}") && At(text, q + 3 + |PrintBody(body)|, '\n')
  {
    BracesSplit(text, q, PrintBody(body));
  }

  lemma {:induction false} BracesRead(text: string, q: nat, body: seq<Item>, mid: nat)
    requires BodyOk(body) && StandsAt(text, q, PrintBraces(body)) && mid == q + 3 + |PrintBody(body)|
    ensures At(text, q, '{') && BodyReads(text, q + 1, map[], BodyFields(body, map[]), mid) && At(text, mid, '\n')
    decreases body, 1
  {
    hide StandsAt, ParseBody, PrintBody;
    BracesStand(text, q, body);
    PrintedBodyReads(text, q + 2, body, map[]);
    BodySkipsNewline(text, q + 1, map[], BodyFields(body, map[]), mid);
  }

  lemma SubSplits(text: string, pos: nat, key: string, braces: string)
    requires StandsAt(text, pos, key + " " + braces)
    ensures StandsAt(text, pos, key) && At(text, pos + |key|, ' ') && StandsAt(text, pos + |key| + 1, braces)
  {
    StandsSplit(text, pos, key + " ", braces);
    StandsSplit(text, pos, key, " ");
  }

  lemma {:induction false} SubFieldReads(text: string, pos: nat, key: string, body: seq<Item>, mid: nat)
    requires IsIdent(key) && BodyOk(body) && StandsAt(text, pos, key + " " + PrintBraces(body))
    requires mid == pos + |key| + 4 + |PrintBody(body)|
    ensures KeyStands(text, pos, key, '{') && At(text, mid, '\n')
    ensures FieldReads(text, pos + |key| + 1, Block(BodyFields(body, map[])), mid)
    decreases body, 2
  {
    SubSplits(text, pos, key, PrintBraces(body));
    BracesRead(text, pos + |key| + 1, body, mid);
    KeyReads(text, pos, key, '{');
    BlockField(text, pos + |key| + 1, BodyFields(body, map[]), mid);
  }

  lemma {:induction false} SubItemReads(text: string, pos: nat, key: string, body: seq<Item>, mid: nat,
                                        before: Fields, after: Fields, end: nat)
    requires IsIdent(key) && BodyOk(body) && StandsAt(text, pos, key + " " + PrintBraces(body))
    requires mid == pos + |key| + 4 + |PrintBody(body)| && mid + 1 < |text|
    requires BodyReads(text, mid + 1, before[key := Block(BodyFields(body, map[]))], after, end)
    ensures BodyReads(text, pos, before, after, end)
    decreases body, 3
  {
    hide StandsAt, ParseBody, PrintBody;
    SubFieldReads(text, pos, key, body, mid);
    BodyTakesLine(text, pos, before, key, '{', Block(BodyFields(body, map[])), mid, after, end);
  }

  lemma {:induction false} BareItemReads(text: string, pos: nat, item: Item, before: Fields, after: Fields, end: nat)
    requires ItemOk(item) && StandsAt(text, pos, PrintBareItem(item)) && pos + |PrintBareItem(item)| < |text|
    requires BodyReads(text, pos + |PrintBareItem(item)|, before[item.key := ItemVal(item)], after, end)
    ensures BodyReads(text, pos, before, after, end)
    decreases item, 0
  {
    match item
    case Field(_, key, value) =>
      FieldItemReads(text, pos, key, value, pos + |PrintBareItem(item)| - 1, before, after, end);
    case Sub(_, key, body) => SubItemReads(text, pos, key, body, pos + |PrintBareItem(item)| - 1, before, after, end);
  }

  lemma BodySkips(text: string, pos: nat, mid: nat, before: Fields, after: Fields, end: nat)
    requires pos <= mid < |text| && SkipSpace(text, pos) == SkipSpace(text, mid)
    requires BodyReads(text, mid, before, after, end)
    ensures BodyReads(text, pos, before, after, end)
  {
  }

  lemma ItemSplits(text: string, pos: nat, item: Item, mid: nat)
    requires ItemOk(item) && StandsAt(text, pos, PrintItem(item)) && mid == pos + |PrintLead(item.lead)|
    ensures StandsAt(text, mid, PrintBareItem(item)) && SkipSpace(text, pos) == SkipSpace(text, mid)
    ensures pos + |PrintItem(item)| == mid + |PrintBareItem(item)|
  {
    hide StandsAt, SkipSpace, PrintLead, PrintBareItem;
    StandsSplit(text, pos, PrintLead(item.lead), PrintBareItem(item));
    LeadSkips(text, pos, item.lead);
  }

  /** One item, with what stands in front of it, read off the front of a body. */
  lemma {:induction false} ItemReads(text: string, pos: nat, item: Item, before: Fields, after: Fields, end: nat)
    requires ItemOk(item) && StandsAt(text, pos, PrintItem(item)) && pos + |PrintItem(item)| < |text|
    requires BodyReads(text, pos + |PrintItem(item)|, before[item.key := ItemVal(item)], after, end)
    ensures BodyReads(text, pos, before, after, end)
    decreases item, 1
  {
    hide StandsAt, SkipSpace, ParseBody, PrintItem, PrintBareItem, PrintLead;
    var mid := pos + |PrintLead(item.lead)|;
    ItemSplits(text, pos, item, mid);
    BareItemReads(text, mid, item, before, after, end);
    BodySkips(text, pos, mid, before, after, end);
  }

  lemma FirstItemStands(text: string, pos: nat, body: seq<Item>)
    requires body != [] && StandsAt(text, pos, PrintBody(body) + "}")
    ensures StandsAt(text, pos, PrintItem(body[0]))
    ensures StandsAt(text, pos + |PrintItem(body[0])|, PrintBody(body[1..]) + "}")
    ensures |PrintBody(body)| == |PrintItem(body[0])| + |PrintBody(body[1..])|
    ensures pos + |PrintItem(body[0])| < |text|
  {
    hide StandsAt, PrintItem;
    var first, rest := PrintItem(body[0]), PrintBody(body[1..]);
    assert PrintBody(body) + "}" == first + (rest + "}");
    StandsSplit(text, pos, first, rest + "}");
    StandsSlice(text, pos + |first|, rest + "}");
  }

  /** Parsing a printed body up to its closing brace gives the fields it denotes. */
  lemma {:induction false} PrintedBodyReads(text: string, pos: nat, body: seq<Item>, before: Fields)
    requires BodyOk(body) && StandsAt(text, pos, PrintBody(body) + "}")
    ensures BodyReads(text, pos, before, BodyFields(body, before), pos + |PrintBody(body)| + 1)
    decreases body, 0
  {
    hide StandsAt, ParseBody, PrintItem;
    if body == [] {
      assert PrintBody(body) + "}" == "}";
      StandsChar(text, pos, "}", 0);
      BodyCloses(text, pos, before);
    } else {
      var item, rest := body[0], body[1..];
      FirstItemStands(text, pos, body);
      PrintedBodyReads(text, pos + |PrintItem(item)|, rest, before[item.key := ItemVal(item)]);
      ItemReads(text, pos, item, before, BodyFields(body, before), pos + |PrintBody(body)| + 1);
    }
  }

  /* ----- Blocks ----- */

  /** A block's type and name are read, and its opening brace stands at open. */
  ghost predicate HeaderReads(text: string, pos: nat, kind: string, name: string, open: nat) {
    && Begins(text, pos) && KeyAt(text, pos) == kind
    && NameAt(text, KeyEnd(text, pos)) == name && NameEnd(text, KeyEnd(text, pos)) == open
    && At(text, open, '{')
  }

  lemma UnnamedHeaderReads(text: string, pos: nat, kind: string)
    requires KeyStands(text, pos, kind, '{')
    ensures HeaderReads(text, pos, kind, "", pos + |kind| + 1)
  {
  }

  ghost predicate NameReads(text: string, q: nat, name: string, open: nat) {
    NameAt(text, q) == name && NameEnd(text, q) == open && At(text, open, '{')
  }

  lemma NamedHeaderReads(text: string, pos: nat, kind: string, name: string, open: nat)
    ensures KeyStands(text, pos, kind, '"') && NameReads(text, pos + |kind| + 1, name, open) ==>
              HeaderReads(text, pos, kind, name, open)
  {
  }

  lemma NameSplits(text: string, q: nat, name: string)
    requires StandsAt(text, q, "\"" + name + "\"" + " ")
    ensures StandsAt(text, q, "\"" + name + "\"") && At(text, q, '"') && At(text, q + |name| + 2, ' ')
  {
    StandsSplit(text, q, "\"" + name + "\"", " ");
    StandsChar(text, q, "\"" + name + "\"", 0);
  }

  lemma QuotedNameReads(text: string, q: nat, name: string)
    requires IsRaw(name) && StandsAt(text, q, "\"" + name + "\"")
    requires At(text, q + |name| + 2, ' ') && At(text, q + |name| + 3, '{')
    ensures NameReads(text, q, name, q + |name| + 3)
  {
    QuotedScans(text, q, name);
    assert SkipSpace(text, q + |name| + 3) == q + |name| + 3;
  }

  ghost predicate BlockReads(text: string, pos: nat, before: Ast, after: Ast, end: nat) {
    pos <= |text| && var r := ParseBlock(text, pos, before); r.Done? && r.value == after && r.pos == end
  }

  lemma BlockTakes(text: string, pos: nat, before: Ast, kind: string, name: string, open: nat, fields: Fields, mid: nat)
    ensures HeaderReads(text, pos, kind, name, open) && BodyReads(text, open + 1, map[], fields, mid) ==>
              BlockReads(text, pos, before, AddBlock(before, kind, name, fields), mid)
  {
  }

  lemma DeclSplits(text: string, pos: nat, d: Decl)
    requires StandsAt(text, pos, PrintBareDecl(d))
    ensures StandsAt(text, pos, d.kind) && At(text, pos + |d.kind|, ' ')
    ensures StandsAt(text, pos + |d.kind| + 1, PrintName(d.name))
    ensures StandsAt(text, pos + |d.kind| + 1 + |PrintName(d.name)|, PrintBraces(d.body))
  {
    StandsSplit(text, pos, d.kind + " " + PrintName(d.name), PrintBraces(d.body));
    StandsSplit(text, pos, d.kind + " ", PrintName(d.name));
    StandsSplit(text, pos, d.kind, " ");
  }

  lemma HeaderOf(text: string, pos: nat, kind: string, name: string, open: nat)
    requires IsIdent(kind) && IsRaw(name) && open == pos + |kind| + 1 + |PrintName(name)|
    requires StandsAt(text, pos, kind) && At(text, pos + |kind|, ' ') && At(text, open, '{')
    requires StandsAt(text, pos + |kind| + 1, PrintName(name))
    ensures HeaderReads(text, pos, kind, name, open)
  {
    hide StringEnd, StringValue, SkipSpace, IdentEnd;
    if name == "" {
      KeyReads(text, pos, kind, '{');
      UnnamedHeaderReads(text, pos, kind);
    } else {
      NameSplits(text, pos + |kind| + 1, name);
      KeyReads(text, pos, kind, '"');
      QuotedNameReads(text, pos + |kind| + 1, name);
      NamedHeaderReads(text, pos, kind, name, open);
    }
  }

  lemma DeclReads(text: string, pos: nat, d: Decl, end: nat, before: Ast)
    requires DeclOk(d) && StandsAt(text, pos, PrintBareDecl(d)) && end == pos + |PrintBareDecl(d)| - 1
    ensures Begins(text, pos) && At(text, end, '\n')
    ensures BlockReads(text, pos, before, AddDecl(before, d), end)
  {
    var open := pos + |d.kind| + 1 + |PrintName(d.name)|;
    DeclSplits(text, pos, d);
    BracesRead(text, open, d.body, end);
    HeaderOf(text, pos, d.kind, d.name, open);
    BlockTakes(text, pos, before, d.kind, d.name, open, BodyFields(d.body, map[]), end);
  }

  /** Parsing blocks may start behind what is skipped. */
  lemma BlocksSkip(text: string, pos: nat, mid: nat, ast: Ast)
    requires pos <= mid <= |text| && SkipSpace(text, pos) == SkipSpace(text, mid)
    ensures ParseBlocks(text, pos, ast) == ParseBlocks(text, mid, ast)
  {
  }

  lemma BlockGoesOn(text: string, pos: nat, before: Ast, more: Ast, mid: nat)
    requires Begins(text, pos) && BlockReads(text, pos, before, more, mid) && At(text, mid, '\n')
    ensures ParseBlocks(text, pos, before) == ParseBlocks(text, mid + 1, more)
  {
    BlocksSkip(text, mid, mid + 1, more);
  }

  lemma LeadingDeclSplits(text: string, pos: nat, d: Decl, mid: nat)
    requires DeclOk(d) && StandsAt(text, pos, PrintDecl(d)) && mid == pos + |PrintLead(d.lead)|
    ensures StandsAt(text, mid, PrintBareDecl(d)) && SkipSpace(text, pos) == SkipSpace(text, mid)
    ensures pos + |PrintDecl(d)| == mid + |PrintBareDecl(d)|
  {
    hide StandsAt, SkipSpace, PrintLead, PrintBareDecl;
    StandsSplit(text, pos, PrintLead(d.lead), PrintBareDecl(d));
    LeadSkips(text, pos, d.lead);
  }

  /** One block, with what stands in front of it, read off the front of a document. */
  lemma DeclGoesOn(text: string, pos: nat, d: Decl, before: Ast)
    requires DeclOk(d) && StandsAt(text, pos, PrintDecl(d))
    ensures ParseBlocks(text, pos, before) == ParseBlocks(text, pos + |PrintDecl(d)|, AddDecl(before, d))
  {
    hide StandsAt, SkipSpace, ParseBlocks, ParseBlock, PrintDecl, PrintLead, AddDecl;
    var mid := pos + |PrintLead(d.lead)|;
    LeadingDeclSplits(text, pos, d, mid);
    DeclReads(text, mid, d, mid + |PrintBareDecl(d)| - 1, before);
    BlocksSkip(text, pos, mid, before);
    BlockGoesOn(text, mid, before, AddDecl(before, d), mid + |PrintBareDecl(d)| - 1);
  }

  lemma FirstDeclStands(text: string, pos: nat, decls: seq<Decl>)
    requires decls != [] && StandsAt(text, pos, PrintDocument(decls))
    ensures StandsAt(text, pos, PrintDecl(decls[0]))
    ensures StandsAt(text, pos + |PrintDecl(decls[0])|, PrintDocument(decls[1..]))
    ensures |PrintDocument(decls)| == |PrintDecl(decls[0])| + |PrintDocument(decls[1..])|
  {
    hide StandsAt, PrintDecl;
    StandsSplit(text, pos, PrintDecl(decls[0]), PrintDocument(decls[1..]));
  }

  /** Behind a printed document parsing goes on with the dictionary that the document denotes. */
  lemma {:induction false} DocumentGoesOn(text: string, pos: nat, decls: seq<Decl>, before: Ast)
    requires forall i :: 0 <= i < |decls| ==> DeclOk(decls[i])
    requires StandsAt(text, pos, PrintDocument(decls))
    ensures ParseBlocks(text, pos, before) ==
            ParseBlocks(text, pos + |PrintDocument(decls)|, DocumentAst(decls, before))
    decreases decls
  {
    hide StandsAt, ParseBlocks, PrintDecl;
    if decls != [] {
      FirstDeclStands(text, pos, decls);
      DeclGoesOn(text, pos, decls[0], before);
      DocumentGoesOn(text, pos + |PrintDecl(decls[0])|, decls[1..], AddDecl(before, decls[0]));
    }
  }

  lemma WholeDocument(decls: seq<Decl>, rest: string)
    requires forall i :: 0 <= i < |decls| ==> DeclOk(decls[i])
    ensures var text := PrintDocument(decls) + rest;
            Parse(text) == ParseBlocks(text, |PrintDocument(decls)|, DocumentAst(decls, map[]))
            && StandsAt(text, |PrintDocument(decls)|, rest)
  {
    hide StandsAt, ParseBlocks, PrintDocument, DocumentAst;
    var text := PrintDocument(decls) + rest;
    WholeStands(text, 0);
    assert text[0..] == text;
    StandsSplit(text, 0, PrintDocument(decls), rest);
    DocumentGoesOn(text, 0, decls, map[]);
  }

  lemma {:induction false} LeadAtEnd(text: string, pos: nat, lead: seq<Gap>)
    requires LeadOk(lead) && StandsAt(text, pos, PrintLead(lead)) && pos + |PrintLead(lead)| == |text|
    ensures SkipSpace(text, pos) == |text|
  {
    LeadSkips(text, pos, lead);
  }

  /**
   Parsing the printed form of a document, with white space and comments before items and blocks
   and at the end, yields the dictionary it denotes and ends with the text.
   */
  lemma RoundTrip(decls: seq<Decl>, tail: seq<Gap>)
    requires (forall i :: 0 <= i < |decls| ==> DeclOk(decls[i])) && LeadOk(tail)
    ensures var text := PrintDocument(decls) + PrintLead(tail); Parse(text) == Done(DocumentAst(decls, map[]), |text|)
  {
    WholeDocument(decls, PrintLead(tail));
    LeadAtEnd(PrintDocument(decls) + PrintLead(tail), |PrintDocument(decls)|, tail);
  }

  lemma NameAloneRaises(text: string, pos: nat, ast: Ast)
    requires Begins(text, pos) && IdentEnd(text, pos) == |text|
    ensures ParseBlocks(text, pos, ast) == Raised(|text|)
  {
  }

  /** A document followed by a bare name raises at the end of the text: the brace is missing. */
  lemma BareNameRaises(decls: seq<Decl>, name: string)
    requires (forall i :: 0 <= i < |decls| ==> DeclOk(decls[i])) && IsIdent(name)
    ensures var text := PrintDocument(decls) + name; Parse(text) == Raised(|text|)
  {
    hide StandsAt, ParseBlocks, PrintDocument, DocumentAst, IdentEnd;
    var text, pos := PrintDocument(decls) + name, |PrintDocument(decls)|;
    WholeDocument(decls, name);
    StandsChar(text, pos, name, 0);
    IdentScans(text, pos, name);
    NameAloneRaises(text, pos, DocumentAst(decls, map[]));
  }

  /** Inside a block a key with neither an equals sign nor a brace behind it raises. */
  lemma KeyAloneRaises(decls: seq<Decl>, name: string, key: string)
    requires (forall i :: 0 <= i < |decls| ==> DeclOk(decls[i])) && IsIdent(name) && IsIdent(key)
    ensures var text := PrintDocument(decls) + (name + " " + ("{" + (key + "}"))); Parse(text) == Raised(|text| - 1)
  {
    hide StandsAt, ParseBlocks, PrintDocument, DocumentAst, IdentEnd;
    var rest := name + " " + ("{" + (key + "}"));
    var text, pos := PrintDocument(decls) + rest, |PrintDocument(decls)|;
    var open := pos + |name| + 1;
    WholeDocument(decls, rest);
    SubSplits(text, pos, name, "{" + (key + "}"));
    StandsSplit(text, open, "{", key + "}");
    StandsChar(text, open, "{", 0);
    StandsSplit(text, open + 1, key, "}");
    StandsChar(text, open + 1 + |key|, "}", 0);
    StandsChar(text, open + 1, key, 0);
    KeyReads(text, pos, name, '{');
    IdentScans(text, open + 1, key);
    KeyThenBraceRaises(text, pos, name, open + 1 + |key|, DocumentAst(decls, map[]));
  }

  lemma KeyThenBraceRaises(text: string, pos: nat, name: string, end: nat, ast: Ast)
    requires KeyStands(text, pos, name, '{') && At(text, end, '}')
    requires Begins(text, pos + |name| + 2) && IdentEnd(text, pos + |name| + 2) == end
    ensures ParseBlocks(text, pos, ast) == Raised(end)
  {
    hide IdentEnd, AddBlock;
    UnnamedHeaderReads(text, pos, name);
    assert SkipSpace(text, end) == end;
    assert ParseBody(text, pos + |name| + 2, map[]) == Raised(end);
    assert ParseBlock(text, pos, ast) == Raised(end);
  }

  /* ----- Texts that end early ----- */

  /** A document followed by a name and an opening brace: the block counts, with no fields. */
  lemma OpenBlockAtEnd(decls: seq<Decl>, name: string)
    requires (forall i :: 0 <= i < |decls| ==> DeclOk(decls[i])) && IsIdent(name)
    ensures var text := PrintDocument(decls) + (name + " " + "{");
            Parse(text) == Done(AddBlock(DocumentAst(decls, map[]), name, "", map[]), |text|)
  {
    hide StandsAt, ParseBlocks, PrintDocument, DocumentAst, IdentEnd, AddBlock;
    var text, pos := PrintDocument(decls) + (name + " " + "{"), |PrintDocument(decls)|;
    WholeDocument(decls, name + " " + "{");
    SubSplits(text, pos, name, "{");
    StandsChar(text, pos + |name| + 1, "{", 0);
    KeyReads(text, pos, name, '{');
    OpenBraceEnds(text, pos, name, DocumentAst(decls, map[]));
  }

  lemma OpenBraceEnds(text: string, pos: nat, name: string, ast: Ast)
    requires KeyStands(text, pos, name, '{') && pos + |name| + 2 == |text|
    ensures ParseBlocks(text, pos, ast) == Done(AddBlock(ast, name, "", map[]), |text|)
  {
    hide IdentEnd, AddBlock;
    UnnamedHeaderReads(text, pos, name);
    assert ParseBody(text, |text|, map[]) == Done(map[], |text|);
    assert ParseBlock(text, pos, ast) == Done(AddBlock(ast, name, "", map[]), |text|);
  }

  /** A value that is missing, a string without its closing quote, a list without its bracket. */
  lemma ValuesAtEnd(text: string, pos: nat)
    ensures SkipSpace(text, pos) >= |text| ==> ParseValue(text, pos) == Done(NoValue, SkipSpace(text, pos))
    ensures At(text, pos, '"') && '"' !in text[pos + 1..] && '\\' !in text[pos + 1..] ==>
              ParseValue(text, pos) == Done(Str(text[pos + 1..]), |text| + 1)
    ensures At(text, pos, '[') && pos + 1 == |text| ==> ParseValue(text, pos) == Done(List([]), |text|)
  {
    if At(text, pos, '"') && '"' !in text[pos + 1..] && '\\' !in text[pos + 1..] {
      NoQuoteEnds(text, pos + 1);
      assert text[pos + 1..|text|] == text[pos + 1..];
    }
  }

  lemma {:induction false} NoQuoteEnds(text: string, pos: nat)
    requires pos <= |text| && '"' !in text[pos..] && '\\' !in text[pos..]
    ensures StringEnd(text, pos) == |text|
    decreases |text| - pos
  {
    if pos < |text| {
      assert text[pos..] == [text[pos]] + text[pos + 1..];
      NoQuoteEnds(text, pos + 1);
    }
  }
}
