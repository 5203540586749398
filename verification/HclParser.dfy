/** The HCL parser as an object whose methods move one shared cursor. */
module HclParser {
  import opened HclSpec

  class HCLParser {
    const text: string
    var pos: nat

    constructor (text: string)
      ensures this.text == text && pos == 0
    {
      this.text := text;
      pos := 0;
    }

    /** Parses the whole text; the result and the final cursor are those of the specification. */
    method Parse() returns (r: Parsed<Ast>)
      modifies this`pos
      ensures r == ParseBlocks(text, old(pos), map[]) && pos == r.pos
    {
      var ast: Ast := map[];
      ghost var start := pos;
      while pos < |text|
        invariant ParseBlocks(text, start, map[]) == ParseBlocks(text, pos, ast)
        decreases Left(text, pos)
      {
        SkipWhitespace();
        if pos >= |text| {
          break;
        }
        var block := ParseBlockInto(ast);
        match block {
          case Raised(at) => return Raised(at);
          case Stuck(at) => return Stuck(at);
          case Done(more, _) => ast := more;
        }
      }
      return Done(ast, pos);
    }

    /** The body of the loop of Parse: one block, put into the dictionary built so far. */
    method ParseBlockInto(ast: Ast) returns (r: Parsed<Ast>)
      requires pos <= |text|
      modifies this`pos
      ensures r == ParseBlock(text, old(pos), ast) && pos == r.pos
    {
      var kind, name := ReadHeader();
      r := ParseBracesInto(ast, kind, name);
    }

    method ParseBracesInto(ast: Ast, kind: string, name: string) returns (r: Parsed<Ast>)
      modifies this`pos
      ensures r == ParseBraces(text, old(pos), ast, kind, name) && pos == r.pos
    {
      if !(pos < |text| && text[pos] == '{') {
        return Raised(pos);
      }
      pos := pos + 1;
      var body := ParseBlockBody();
      r := PutParsed(ast, kind, name, body);
    }

    static method PutParsed(ast: Ast, kind: string, name: string, body: Parsed<Fields>) returns (r: Parsed<Ast>)
      ensures r == WithBlock(ast, kind, name, body)
    {
      match body {
        case Raised(at) => return Raised(at);
        case Stuck(at) => return Stuck(at);
        case Done(fields, at) =>
          var more := PutBlock(ast, kind, name, fields);
          return Done(more, at);
      }
    }

    static method PutBlock(ast: Ast, kind: string, name: string, fields: Fields) returns (more: Ast)
      ensures more == AddBlock(ast, kind, name, fields)
    {
      more := ast;
      if kind !in more {
        more := more[kind := if name != "" then map[] else fields];
      }
      if name != "" {
        more := more[kind := more[kind][name := Block(fields)]];
      }
    }

    /** The block type and the optional quoted name in front of a block. */
    method ReadHeader() returns (kind: string, name: string)
      requires pos <= |text|
      modifies this`pos
      ensures kind == KeyAt(text, old(pos)) && name == NameAt(text, KeyEnd(text, old(pos)))
      ensures pos == NameEnd(text, KeyEnd(text, old(pos)))
    {
      kind := ReadIdentifier();
      SkipWhitespace();
      name := ReadName();
    }

    method ReadName() returns (name: string)
      modifies this`pos
      ensures name == NameAt(text, old(pos)) && pos == NameEnd(text, old(pos))
    {
      name := "";
      if pos < |text| && text[pos] == '"' {
        name := ReadString();
        SkipWhitespace();
      }
    }

    method SkipWhitespace()
      modifies this`pos
      ensures pos == SkipSpace(text, old(pos))
    {
      while pos < |text|
        invariant SkipSpace(text, pos) == SkipSpace(text, old(pos))
        decreases Left(text, pos)
      {
        if IsSpace(text[pos]) {
          pos := pos + 1;
        } else if text[pos] == '#' || (text[pos] == '/' && pos + 1 < |text| && text[pos + 1] == '/') {
          ghost var start := pos;
          while pos < |text| && text[pos] != '\n'
            invariant SkipComment(text, pos) == SkipComment(text, start)
            decreases Left(text, pos)
          {
            pos := pos + 1;
          }
        } else {
          break;
        }
      }
    }

    method ReadIdentifier() returns (name: string)
      requires pos <= |text|
      modifies this`pos
      ensures pos == IdentEnd(text, old(pos)) && name == text[old(pos)..pos]
    {
      var start := pos;
      while pos < |text| && IsIdentChar(text[pos])
        invariant start <= pos <= |text| && IdentEnd(text, pos) == IdentEnd(text, start)
        decreases Left(text, pos)
      {
        pos := pos + 1;
      }
      return text[start..pos];
    }

    method ReadString() returns (val: string)
      requires pos < |text|
      modifies this`pos
      ensures val == StringValue(text, old(pos)) && pos == StringEnd(text, old(pos) + 1) + 1
    {
      pos := pos + 1;
      var start := pos;
      while pos < |text| && text[pos] != '"'
        invariant start <= pos && StringEnd(text, pos) == StringEnd(text, start)
        decreases Left(text, pos)
      {
        if text[pos] == '\\' {
          pos := pos + 2;
        } else {
          pos := pos + 1;
        }
      }
      val := if pos <= |text| then text[start..pos] else text[start..];
      pos := pos + 1;
    }

    method ParseBlockBody() returns (r: Parsed<Fields>)
      modifies this`pos
      ensures r == ParseBody(text, old(pos), map[]) && pos == r.pos
      decreases Left(text, pos), 3
    {
      var body: Fields := map[];
      ghost var start := pos;
      while pos < |text|
        invariant start <= pos && ParseBody(text, start, map[]) == ParseBody(text, pos, body)
        decreases Left(text, pos)
      {
        SkipWhitespace();
        if pos >= |text| || text[pos] == '}' {
          if pos < |text| {
            pos := pos + 1;
          }
          return Done(body, pos);
        }
        var key := ReadIdentifier();
        SkipWhitespace();
        var val := ParseFieldHere();
        match val {
          case Raised(at) => return Raised(at);
          case Stuck(at) => return Stuck(at);
          case Done(v, _) => body := body[key := v];
        }
      }
      return Done(body, pos);
    }

    /** The part of the body loop behind the key. */
    method ParseFieldHere() returns (r: Parsed<Val>)
      modifies this`pos
      ensures r == ParseField(text, old(pos)) && pos == r.pos
      decreases Left(text, pos), 2
    {
      if pos < |text| && text[pos] == '=' {
        pos := pos + 1;
        SkipWhitespace();
        r := ParseValueHere();
      } else if pos < |text| && text[pos] == '{' {
        pos := pos + 1;
        var sub := ParseBlockBody();
        match sub {
          case Raised(at) => r := Raised(at);
          case Stuck(at) => r := Stuck(at);
          case Done(fields, at) => r := Done(Block(fields), at);
        }
      } else {
        r := Raised(pos);
      }
    }

    method ParseValueHere() returns (r: Parsed<Val>)
      modifies this`pos
      ensures r == ParseValue(text, old(pos)) && pos == r.pos
      decreases Left(text, pos), 0
    {
      SkipWhitespace();
      if pos >= |text| {
        return Done(NoValue, pos);
      }
      var c := text[pos];
      if c == '"' {
        var s := ReadString();
        return Done(Str(s), pos);
      }
      if c == '[' {
        pos := pos + 1;
        r := ParseItems();
        return;
      }
      var start := pos;
      while pos < |text| && !EndsScalar(text[pos])
        invariant start <= pos <= |text| && ScalarEnd(text, pos) == ScalarEnd(text, start)
        decreases Left(text, pos)
      {
        pos := pos + 1;
      }
      return Done(Classify(text[start..pos]), pos);
    }

    /** The list loop of ParseValueHere; looking at a closing brace it would never move on. */
    method ParseItems() returns (r: Parsed<Val>)
      modifies this`pos
      ensures r == ParseList(text, old(pos), []) && pos == r.pos
      decreases Left(text, pos), 1
    {
      var items: seq<Val> := [];
      ghost var start := pos;
      while pos < |text|
        invariant start <= pos && ParseList(text, start, []) == ParseList(text, pos, items)
        decreases Left(text, pos)
      {
        SkipWhitespace();
        if pos < |text| && text[pos] == ']' {
          pos := pos + 1;
          return Done(List(items), pos);
        }
        if pos < |text| && text[pos] == '}' {
          return Stuck(pos);
        }
        var val := ParseValueHere();
        match val {
          case Raised(at) => return Raised(at);
          case Stuck(at) => return Stuck(at);
          case Done(v, _) => items := items + [v];
        }
        SkipCommaHere();
      }
      return Done(List(items), pos);
    }

    method SkipCommaHere()
      modifies this`pos
      ensures pos == SkipComma(text, old(pos))
    {
      SkipWhitespace();
      if pos < |text| && text[pos] == ',' {
        pos := pos + 1;
      }
    }
  }
}
