/** What documents denote: which bodies stand in the resulting dictionary, and nothing else. */
module HclMeaning {
  import opened Wrappers
  import opened HclSpec
  import opened HclRoundTrip

  ghost predicate KeysDistinct(body: seq<Item>) {
    forall i, j :: 0 <= i < j < |body| ==> body[i].key != body[j].key
  }

  function Lookup(fields: Fields, key: string): Option<Val> {
    if key in fields then Some(fields[key]) else None
  }

  /** A key that no item has keeps its field. */
  lemma {:induction false} OtherFieldsStay(body: seq<Item>, fields: Fields, key: string)
    requires forall i :: 0 <= i < |body| ==> body[i].key != key
    ensures Lookup(BodyFields(body, fields), key) == Lookup(fields, key)
    decreases body
  {
    if body != [] {
      OtherFieldsStay(body[1..], fields[body[0].key := ItemVal(body[0])], key);
    }
  }

  lemma {:induction false} ItemStands(body: seq<Item>, fields: Fields, i: nat)
    requires KeysDistinct(body) && i < |body|
    ensures Lookup(BodyFields(body, fields), body[i].key) == Some(ItemVal(body[i]))
    decreases body
  {
    var next := fields[body[0].key := ItemVal(body[0])];
    if i == 0 {
      OtherFieldsStay(body[1..], next, body[0].key);
    } else {
      ItemStands(body[1..], next, i - 1);
    }
  }

  /** With distinct keys a body denotes exactly its items, whatever their order. */
  lemma BodyFieldsAreItems(body: seq<Item>, fields: Fields)
    requires KeysDistinct(body)
    ensures var r := BodyFields(body, fields);
            && r.Keys == fields.Keys + (set i | 0 <= i < |body| :: body[i].key)
            && (forall i :: 0 <= i < |body| ==> r[body[i].key] == ItemVal(body[i]))
            && (forall k :: k in fields && (forall i :: 0 <= i < |body| ==> body[i].key != k) ==> r[k] == fields[k])
  {
    var r, keys := BodyFields(body, fields), set i | 0 <= i < |body| :: body[i].key;
    forall i | 0 <= i < |body| ensures Lookup(r, body[i].key) == Some(ItemVal(body[i])) {
      ItemStands(body, fields, i);
    }
    forall k | k !in keys ensures Lookup(r, k) == Lookup(fields, k) {
      OtherFieldsStay(body, fields, k);
    }
    SameKeys(r, fields, keys);
  }

  lemma SameKeys(r: Fields, fields: Fields, keys: set<string>)
    requires forall k :: k in keys ==> Lookup(r, k).Some?
    requires forall k :: k !in keys ==> Lookup(r, k) == Lookup(fields, k)
    ensures r.Keys == fields.Keys + keys
    ensures forall k :: k in fields && k !in keys ==> r[k] == fields[k]
  {
    forall k ensures k in r <==> k in fields || k in keys {
      assert k in keys || Lookup(r, k) == Lookup(fields, k);
    }
    forall k | k in fields && k !in keys ensures r[k] == fields[k] {
      assert Lookup(r, k) == Lookup(fields, k);
    }
  }

  /** The first block of a type, which makes the dictionary of the type. */
  function FirstOf(decls: seq<Decl>, kind: string): (k: Option<nat>)
    ensures k.Some? ==> k.value < |decls| && decls[k.value].kind == kind
    ensures k.Some? ==> forall i :: 0 <= i < k.value ==> decls[i].kind != kind
    ensures k.None? ==> forall i :: 0 <= i < |decls| ==> decls[i].kind != kind
  {
    if decls == [] then None
    else if decls[0].kind == kind then Some(0)
    else
      match FirstOf(decls[1..], kind)
      case Some(k) => Some(k + 1)
      case None => None
  }

  predicate IsNamed(d: Decl, kind: string, name: string) {
    d.kind == kind && d.name == name && name != ""
  }

  /** The last block of a type with this name, which wins. */
  function LastNamed(decls: seq<Decl>, kind: string, name: string): (k: Option<nat>)
    ensures k.Some? ==> k.value < |decls| && IsNamed(decls[k.value], kind, name)
    ensures k.Some? ==> forall i :: k.value < i < |decls| ==> !IsNamed(decls[i], kind, name)
    ensures k.None? ==> forall i :: 0 <= i < |decls| ==> !IsNamed(decls[i], kind, name)
  {
    if decls == [] then None
    else
      match LastNamed(decls[1..], kind, name)
      case Some(k) => Some(k + 1)
      case None => if IsNamed(decls[0], kind, name) then Some(0) else None
  }

  /**
   What stands under a type and a key: the body of the last block of that type with that name;
   failing that, the field of the type's first block, if that block has no name.
   */
  function Denoted(decls: seq<Decl>, kind: string, key: string): Option<Val> {
    var last, first := LastNamed(decls, kind, key), FirstOf(decls, kind);
    if last.Some? then Some(Block(BodyFields(decls[last.value].body, map[])))
    else if first.Some? && decls[first.value].name == "" then Lookup(BodyFields(decls[first.value].body, map[]), key)
    else None
  }

  /** The same with a dictionary to start from. */
  function DenotedFrom(decls: seq<Decl>, ast: Ast, kind: string, key: string): Option<Val> {
    if kind in ast && LastNamed(decls, kind, key).None? then Lookup(ast[kind], key) else Denoted(decls, kind, key)
  }

  lemma AddDeclDenotes(ast: Ast, d: Decl, kind: string, key: string)
    ensures kind in AddDecl(ast, d) <==> kind in ast || d.kind == kind
    ensures kind in AddDecl(ast, d) ==> Lookup(AddDecl(ast, d)[kind], key) == DenotedFrom([d], ast, kind, key)
  {
    assert LastNamed([d][1..], kind, key) == None;
  }

  lemma DenotedStepwise(decls: seq<Decl>, ast: Ast, kind: string, key: string)
    requires decls != []
    ensures kind in AddDecl(ast, decls[0]) ==>
              DenotedFrom(decls, ast, kind, key) == DenotedFrom(decls[1..], AddDecl(ast, decls[0]), kind, key)
    ensures kind !in AddDecl(ast, decls[0]) ==> DenotedFrom(decls, ast, kind, key) == Denoted(decls[1..], kind, key)
  {
    AddDeclDenotes(ast, decls[0], kind, key);
    assert LastNamed([decls[0]][1..], kind, key) == None;
  }

  lemma {:induction false} DenotesFrom(decls: seq<Decl>, ast: Ast, kind: string, key: string)
    ensures kind in DocumentAst(decls, ast) <==> kind in ast || FirstOf(decls, kind).Some?
    ensures kind in DocumentAst(decls, ast) ==>
              Lookup(DocumentAst(decls, ast)[kind], key) == DenotedFrom(decls, ast, kind, key)
    decreases decls
  {
    if decls != [] {
      DenotesFrom(decls[1..], AddDecl(ast, decls[0]), kind, key);
      AddDeclDenotes(ast, decls[0], kind, key);
      DenotedStepwise(decls, ast, kind, key);
    }
  }

  /**
   A document denotes exactly this: its types are those of its blocks, and every key of every
   type holds what Denoted says and nothing else.
   */
  lemma DocumentDenotes(decls: seq<Decl>, kind: string, key: string)
    ensures kind in DocumentAst(decls, map[]) <==> exists i :: 0 <= i < |decls| && decls[i].kind == kind
    ensures kind in DocumentAst(decls, map[]) ==>
              Lookup(DocumentAst(decls, map[])[kind], key) == Denoted(decls, kind, key)
  {
    DenotesFrom(decls, map[], kind, key);
  }

  ghost predicate NamesDistinct(decls: seq<Decl>) {
    && (forall i :: 0 <= i < |decls| ==> decls[i].name != "")
    && (forall i, j :: 0 <= i < j < |decls| ==> decls[i].kind != decls[j].kind || decls[i].name != decls[j].name)
  }

  /** A named entry that no block of the document rewrites is kept. */
  lemma NamedEntryIsKept(decls: seq<Decl>, ast: Ast, kind: string, name: string)
    requires forall i :: 0 <= i < |decls| ==> decls[i].name != "" && (decls[i].kind != kind || decls[i].name != name)
    requires kind in ast && name in ast[kind]
    ensures var r := DocumentAst(decls, ast); kind in r && name in r[kind] && r[kind][name] == ast[kind][name]
  {
    DenotesFrom(decls, ast, kind, name);
  }

  /** Named blocks with distinct names each stand in the result under their type and name. */
  lemma NamedBlockIsFound(decls: seq<Decl>, ast: Ast, i: nat)
    requires NamesDistinct(decls) && i < |decls|
    ensures var d, r := decls[i], DocumentAst(decls, ast);
            && d.kind in r && d.name in r[d.kind] && r[d.kind][d.name] == Block(BodyFields(d.body, map[]))
  {
    DenotesFrom(decls, ast, decls[i].kind, decls[i].name);
  }

  lemma {:induction false} DocumentSplits(a: seq<Decl>, b: seq<Decl>, ast: Ast)
    ensures DocumentAst(a + b, ast) == DocumentAst(b, DocumentAst(a, ast))
    decreases a
  {
    if a == [] {
      assert a + b == b;
    } else {
      assert (a + b)[1..] == a[1..] + b;
      DocumentSplits(a[1..], b, AddDecl(ast, a[0]));
    }
  }

  /** An unnamed block of a type that an earlier block has is dropped without a word. */
  lemma RepeatedUnnamedIsDropped(before: seq<Decl>, d: Decl, after: seq<Decl>, i: nat)
    requires i < |before| && before[i].kind == d.kind && d.name == ""
    ensures DocumentAst(before + [d] + after, map[]) == DocumentAst(before + after, map[])
  {
    DocumentSplits(before + [d], after, map[]);
    DocumentSplits(before, [d], map[]);
    DocumentSplits(before, after, map[]);
    DocumentDenotes(before, d.kind, "");
    assert [d][1..] == [];
  }
}
