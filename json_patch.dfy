/**
 * The request bodies the services write by hand: JSON Patch documents made only of
 * `replace` operations (section 4.3 of RFC 6902), produced by string concatenation exactly
 * as the code does it. Every operation is followed by a comma, including the last, and a
 * string value is put between double quotes without escaping. A permission list is the one
 * value that goes through `JSON.stringify`.
 *
 * The partner of the renderer is a decoder for the same text: when no path or value contains
 * a character JSON would have to escape, the operations can be read back from the body.
 */
module JsonPatch {
  import opened Wrappers

  /** What follows `"value": ` in one operation. */
  datatype PatchValue =
    | Quoted(raw: string)           // a string put between double quotes as it is
    | Null                          // the literal null
    | NameList(names: seq<string>)  // JSON.stringify of [{ name }, ...]

  datatype PatchOp = Replace(path: string, value: PatchValue)

  const OpOpen := "{\"op\": \"replace\", \"path\": "
  const ValueKey := ", \"value\": "
  const OpClose := "},"
  const NameKey := "{\"name\":"

  /** Characters that `JSON.stringify` writes as they are inside a string. */
  predicate JsonSafeChar(c: char) {
    c != '"' && c != '\\' && c as int >= 0x20
  }

  predicate JsonSafe(s: string) {
    forall i :: 0 <= i < |s| ==> JsonSafeChar(s[i])
  }

  function HexLower(n: int): (c: char)
    requires 0 <= n < 16
    ensures ('0' <= c <= '9') || ('a' <= c <= 'f')
  {
    if n < 10 then ('0' as int + n) as char else ('a' as int + n - 10) as char
  }

  /** How `JSON.stringify` writes one character inside a string. */
  function EscapeChar(c: char): (s: string)
    ensures JsonSafeChar(c) ==> s == [c]
    ensures !JsonSafeChar(c) ==> |s| >= 2 && s[0] == '\\'
    ensures forall i :: 0 <= i < |s| ==> s[i] as int >= 0x20
  {
    if c == '"' then "\\\""
    else if c == '\\' then "\\\\"
    else if c == '\U{0008}' then "\\b"
    else if c == '\U{000C}' then "\\f"
    else if c == '\n' then "\\n"
    else if c == '\r' then "\\r"
    else if c == '\t' then "\\t"
    else if c as int < 0x20 then "\\u00" + [HexLower(c as int / 16), HexLower(c as int % 16)]
    else [c]
  }

  function EscapeString(s: string): (r: string)
    ensures |r| >= |s|
    ensures forall i :: 0 <= i < |r| ==> r[i] as int >= 0x20
  {
    if s == [] then [] else EscapeChar(s[0]) + EscapeString(s[1..])
  }

  /** A string put between double quotes as it is. */
  function Quote(w: string): (q: string)
    ensures |q| == |w| + 2 && q[0] == '"' && q[|q| - 1] == '"'
  {
    "\"" + w + "\""
  }

  /**
   * `JSON.stringify` of a string: quoted, with no raw control character inside, and read
   * back by a JSON reader as the string itself.
   */
  function JsonQuote(s: string): (q: string)
    ensures |q| >= |s| + 2 && q[0] == '"' && q[|q| - 1] == '"'
    ensures forall i :: 0 <= i < |q| ==> q[i] as int >= 0x20
    ensures ReadQuoted(q) == Some((s, []))
  {
    ReadQuoteEscaped(s, []);
    assert Quote(EscapeString(s)) + [] == Quote(EscapeString(s));
    Quote(EscapeString(s))
  }

  /** A string with nothing to escape is only put between quotes. */
  lemma {:induction false} JsonQuoteSafe(s: string)
    requires JsonSafe(s)
    ensures JsonQuote(s) == Quote(s)
  {
    EscapeSafe(s);
  }

  lemma {:induction false} EscapeSafe(s: string)
    requires JsonSafe(s)
    ensures EscapeString(s) == s
  {
    if s != [] {
      EscapeSafe(s[1..]);
      assert [s[0]] + s[1..] == s;
    }
  }

  /** One `{ name }` object of a permission list. */
  function NameItem(name: string): string {
    NameKey + (JsonQuote(name) + "}")
  }

  function NameItems(names: seq<string>): string {
    if names == [] then []
    else if |names| == 1 then NameItem(names[0])
    else NameItem(names[0]) + ("," + NameItems(names[1..]))
  }

  /** The permission list as a JSON array of objects with one `name` member each. */
  function NameListJson(names: seq<string>): (json: string)
    ensures |json| >= 2 && json[0] == '[' && json[|json| - 1] == ']'
    ensures names == [] <==> json == "[]"
  {
    "[" + (NameItems(names) + "]")
  }

  function ValueText(v: PatchValue): string {
    match v
    case Quoted(raw) => Quote(raw)
    case Null => "null"
    case NameList(names) => NameListJson(names)
  }

  /** One operation with its trailing comma. */
  function RenderOp(op: PatchOp): (s: string)
    ensures |s| >= 3 && s[0] == '{' && s[|s| - 2..] == "},"
  {
    OpOpen + (Quote(op.path) + (ValueKey + (ValueText(op.value) + OpClose)))
  }

  function Body(ops: seq<PatchOp>): (s: string)
    ensures s == [] <==> ops == []
    ensures ops != [] ==> s[0] == '{' && |s| >= 3 && s[|s| - 2..] == "},"
  {
    if ops == [] then [] else RenderOp(ops[0]) + Body(ops[1..])
  }

  /** The patch document: `[`, every operation followed by a comma, `]`. */
  function Render(ops: seq<PatchOp>): (doc: string)
    ensures |doc| >= 2 && doc[0] == '[' && doc[|doc| - 1] == ']'
    ensures ops == [] <==> doc == "[]"
    ensures ops != [] ==> |doc| >= 5 && doc[..2] == "[{" && doc[|doc| - 3..] == "},]"
  {
    var body := Body(ops);
    if ops == [] then "[" + body + "]"
    else
      BracketedEnds(body);
      "[" + body + "]"
  }

  /** A non-empty body between brackets starts with `[{` and ends with `},]`. */
  lemma BracketedEnds(body: string)
    requires |body| >= 3 && body[0] == '{' && body[|body| - 2..] == "},"
    ensures var doc := "[" + body + "]"; |doc| >= 5 && doc[..2] == "[{" && doc[|doc| - 3..] == "},]"
  {
    var doc := "[" + body + "]";
    assert body[|body| - 2] == '}' && body[|body| - 1] == ',';
    assert doc[|doc| - 3] == '}' && doc[|doc| - 2] == ',' && doc[|doc| - 1] == ']';
    assert doc[..2] == [doc[0], doc[1]];
    assert doc[|doc| - 3..] == [doc[|doc| - 3], doc[|doc| - 2], doc[|doc| - 1]];
  }

  // ---------------------------------------------------------------------------------------
  // Reading a body back

  function DropPrefix(p: string, s: string): (r: Option<string>)
    ensures r.Some? ==> |r.value| == |s| - |p|
  {
    if |p| <= |s| && s[..|p|] == p then Some(s[|p|..]) else None
  }

  lemma DropPrefixOf(p: string, rest: string)
    ensures DropPrefix(p, p + rest) == Some(rest)
  {
    assert (p + rest)[..|p|] == p;
    assert (p + rest)[|p|..] == rest;
  }

  predicate IsHexDigit(c: char) {
    ('0' <= c <= '9') || ('a' <= c <= 'f') || ('A' <= c <= 'F')
  }

  function HexValue(c: char): (n: int)
    requires IsHexDigit(c)
    ensures 0 <= n < 16
  {
    if c <= '9' then c as int - '0' as int
    else if 'a' <= c then c as int - 'a' as int + 10
    else c as int - 'A' as int + 10
  }

  lemma HexLowerValue(n: int)
    requires 0 <= n < 16
    ensures IsHexDigit(HexLower(n)) && HexValue(HexLower(n)) == n
  {
  }

  /**
   * The character a JSON escape sequence stands for, read after its backslash, and what
   * follows the sequence. A `\u` escape naming half of a surrogate pair is refused.
   */
  function Unescape(s: string): (r: Option<(char, string)>)
    ensures r.Some? ==> |r.value.1| < |s|
  {
    if s == [] then None
    else if s[0] == '"' || s[0] == '\\' || s[0] == '/' then Some((s[0], s[1..]))
    else if s[0] == 'b' then Some(('\U{0008}', s[1..]))
    else if s[0] == 'f' then Some(('\U{000C}', s[1..]))
    else if s[0] == 'n' then Some(('\n', s[1..]))
    else if s[0] == 'r' then Some(('\r', s[1..]))
    else if s[0] == 't' then Some(('\t', s[1..]))
    else if s[0] == 'u' && |s| >= 5 && IsHexDigit(s[1]) && IsHexDigit(s[2]) && IsHexDigit(s[3]) && IsHexDigit(s[4]) then
      var v := HexValue(s[1]) * 4096 + HexValue(s[2]) * 256 + HexValue(s[3]) * 16 + HexValue(s[4]);
      if v < 0xD800 || 0xE000 <= v then Some((v as char, s[5..])) else None
    else None
  }

  /** The text up to the next unescaped double quote, escapes decoded, and what follows that quote. */
  function ReadString(s: string): (r: Option<(string, string)>)
    ensures r.Some? ==> |r.value.1| < |s|
    decreases |s|
  {
    if s == [] then None
    else if s[0] == '"' then Some(([], s[1..]))
    else if s[0] == '\\' then
      match Unescape(s[1..])
      case None => None
      case Some((c, t)) =>
        match ReadString(t)
        case None => None
        case Some((w, rest)) => Some(([c] + w, rest))
    else
      match ReadString(s[1..])
      case None => None
      case Some((w, rest)) => Some(([s[0]] + w, rest))
  }

  /** The escape sequence of a character that needs one reads back as that character. */
  lemma UnescapeOf(c: char, rest: string)
    requires !JsonSafeChar(c)
    ensures Unescape(EscapeChar(c)[1..] + rest) == Some((c, rest))
  {
    var e := EscapeChar(c);
    if c == '"' || c == '\\' || c == '\U{0008}' || c == '\U{000C}' || c == '\n' || c == '\r' || c == '\t' {
      assert |e| == 2;
      assert (e[1..] + rest)[0] == e[1] && (e[1..] + rest)[1..] == rest;
    } else {
      var h1 := HexLower(c as int / 16);
      var h2 := HexLower(c as int % 16);
      HexLowerValue(c as int / 16);
      HexLowerValue(c as int % 16);
      assert e == "\\u00" + [h1, h2];
      var t := e[1..] + rest;
      assert t[0] == 'u' && t[1] == '0' && t[2] == '0' && t[3] == h1 && t[4] == h2;
      assert t[5..] == rest;
    }
  }

  /** One written character read off the front of a string. */
  lemma ReadEscapedChar(c: char, t: string)
    ensures ReadString(EscapeChar(c) + t)
         == (match ReadString(t) case None => None case Some((w, r)) => Some(([c] + w, r)))
  {
    var e := EscapeChar(c);
    if JsonSafeChar(c) {
      assert (e + t)[0] == c && (e + t)[1..] == t;
    } else {
      UnescapeOf(c, t);
      assert (e + t)[0] == '\\' && (e + t)[1..] == e[1..] + t;
    }
  }

  /** The written form of a string, then a double quote, reads back as the string. */
  lemma {:induction false} ReadEscapedString(s: string, rest: string)
    ensures ReadString(EscapeString(s) + ("\"" + rest)) == Some((s, rest))
  {
    if s == [] {
      assert EscapeString(s) + ("\"" + rest) == "\"" + rest;
    } else {
      var tail := EscapeString(s[1..]) + ("\"" + rest);
      Assoc(EscapeChar(s[0]), EscapeString(s[1..]), "\"" + rest);
      ReadEscapedString(s[1..], rest);
      ReadEscapedChar(s[0], tail);
      assert [s[0]] + s[1..] == s;
    }
  }

  /** The escaped string between quotes, then anything, reads back as the string. */
  lemma ReadQuoteEscaped(s: string, rest: string)
    ensures ReadQuoted(Quote(EscapeString(s)) + rest) == Some((s, rest))
  {
    var e := EscapeString(s);
    var tail := e + ("\"" + rest);
    ReadEscapedString(s, rest);
    Assoc("\"" + e, "\"", rest);
    Assoc("\"", e, "\"" + rest);
    assert Quote(e) + rest == "\"" + tail;
    assert ("\"" + tail)[1..] == tail;
  }

  /** Round trip: `JSON.stringify` of any string, then anything, reads back as the string. */
  lemma ReadJsonQuotedOf(s: string, rest: string)
    ensures ReadQuoted(JsonQuote(s) + rest) == Some((s, rest))
  {
    assert JsonQuote(s) == Quote(EscapeString(s));
    ReadQuoteEscaped(s, rest);
  }

  lemma {:induction false} ReadStringOf(w: string, rest: string)
    requires '"' !in w && '\\' !in w
    ensures ReadString(w + "\"" + rest) == Some((w, rest))
  {
    if w == [] {
      assert w + "\"" + rest == "\"" + rest;
    } else {
      ReadStringOf(w[1..], rest);
      assert (w + "\"" + rest)[1..] == w[1..] + "\"" + rest;
      assert [w[0]] + w[1..] == w;
    }
  }

  /** A double-quoted string with no escapes. */
  function ReadQuoted(s: string): (r: Option<(string, string)>)
    ensures r.Some? ==> |r.value.1| < |s|
  {
    if s != [] && s[0] == '"' then ReadString(s[1..]) else None
  }

  lemma ReadQuotedOf(w: string, rest: string)
    requires JsonSafe(w)
    ensures ReadQuoted(Quote(w) + rest) == Some((w, rest))
  {
    assert forall i :: 0 <= i < |w| ==> w[i] != '"' && w[i] != '\\' by {
      forall i | 0 <= i < |w| ensures w[i] != '"' && w[i] != '\\' {
        assert JsonSafeChar(w[i]);
      }
    }
    assert (Quote(w) + rest)[1..] == w + "\"" + rest;
    ReadStringOf(w, rest);
  }

  function ReadNameItems(s: string): (r: Option<(seq<string>, string)>)
    ensures r.Some? ==> |r.value.1| < |s|
    decreases |s|
  {
    match DropPrefix(NameKey, s)
    case None => None
    case Some(s1) =>
      match ReadQuoted(s1)
      case None => None
      case Some((name, s2)) =>
        match DropPrefix("}", s2)
        case None => None
        case Some(s3) =>
          if s3 != [] && s3[0] == ']' then Some(([name], s3[1..]))
          else if s3 != [] && s3[0] == ',' then
            match ReadNameItems(s3[1..])
            case None => None
            case Some((names, s4)) => Some(([name] + names, s4))
          else None
  }

  function ReadValue(s: string): (r: Option<(PatchValue, string)>)
    ensures r.Some? ==> |r.value.1| < |s|
  {
    if s == [] then None
    else if s[0] == 'n' then
      if |s| >= 4 && s[..4] == "null" then Some((Null, s[4..])) else None
    else if s[0] == '"' then
      match ReadQuoted(s)
      case None => None
      case Some((raw, rest)) => Some((Quoted(raw), rest))
    else if s[0] == '[' then
      if |s| >= 2 && s[1] == ']' then Some((NameList([]), s[2..]))
      else
        match ReadNameItems(s[1..])
        case None => None
        case Some((names, rest)) => Some((NameList(names), rest))
    else None
  }

  /** The operations of a body whose opening `[` has been read; the body must end at `]`. */
  function ReadOps(s: string): (r: Option<seq<PatchOp>>)
    decreases |s|
  {
    if s == "]" then Some([])
    else
      match DropPrefix(OpOpen, s)
      case None => None
      case Some(s1) =>
        match ReadQuoted(s1)
        case None => None
        case Some((path, s2)) =>
          match DropPrefix(ValueKey, s2)
          case None => None
          case Some(s3) =>
            match ReadValue(s3)
            case None => None
            case Some((value, s4)) =>
              match DropPrefix(OpClose, s4)
              case None => None
              case Some(s5) =>
                match ReadOps(s5)
                case None => None
                case Some(ops) => Some([Replace(path, value)] + ops)
  }

  function Decode(doc: string): Option<seq<PatchOp>> {
    if doc != [] && doc[0] == '[' then ReadOps(doc[1..]) else None
  }

  /**
   * Paths and quoted values hold nothing JSON would escape; permission lists go through
   * `JSON.stringify` and are always readable.
   */
  predicate SafeOp(op: PatchOp) {
    JsonSafe(op.path) &&
    match op.value
    case Quoted(raw) => JsonSafe(raw)
    case Null => true
    case NameList(_) => true
  }

  /** What follows the first `{ name }` object of a non-empty list and its closing `]`. */
  function NameTail(names: seq<string>, rest: string): string
    requires names != []
  {
    if |names| == 1 then "]" + rest else "," + (NameItems(names[1..]) + ("]" + rest))
  }

  lemma NameItemsParts(names: seq<string>, rest: string)
    requires names != []
    ensures NameItems(names) + ("]" + rest)
         == NameKey + (JsonQuote(names[0]) + ("}" + NameTail(names, rest)))
  {
    var n := names[0];
    var q := JsonQuote(n);
    var r := "]" + rest;
    if |names| == 1 {
      Assoc(NameKey, q + "}", r);
      Assoc(q, "}", r);
    } else {
      var more := NameItems(names[1..]);
      Assoc(NameItem(n), "," + more, r);
      Assoc(",", more, r);
      Assoc(NameKey, q + "}", NameTail(names, rest));
      Assoc(q, "}", NameTail(names, rest));
    }
  }

  /** The key of a `{ name }` object drops off, and the quoted name after it reads back. */
  lemma ReadNameItemHead(n: string, tail: string)
    ensures DropPrefix(NameKey, NameKey + (JsonQuote(n) + ("}" + tail))) == Some(JsonQuote(n) + ("}" + tail))
    ensures ReadQuoted(JsonQuote(n) + ("}" + tail)) == Some((n, "}" + tail))
  {
    DropPrefixOf(NameKey, JsonQuote(n) + ("}" + tail));
    ReadJsonQuotedOf(n, "}" + tail);
  }

  /** A `{ name }` object and a comma in front of more items add the name in front. */
  lemma ReadNameItemsCons(s: string, n: string, more: string, names: seq<string>, rest: string)
    requires s == NameKey + (JsonQuote(n) + ("}" + ("," + more)))
    requires ReadNameItems(more) == Some((names, rest))
    ensures ReadNameItems(s) == Some(([n] + names, rest))
  {
    ReadNameItemHead(n, "," + more);
    ReadNameItemsStepMore(s, JsonQuote(n) + ("}" + ("," + more)), n, more, names, rest);
  }

  /** One `{ name }` object read off the front, then either the closing `]` or a comma. */
  lemma ReadNameItemsStep(s: string, t1: string, n: string, tail: string)
    requires DropPrefix(NameKey, s) == Some(t1)
    requires ReadQuoted(t1) == Some((n, "}" + tail))
    ensures tail != [] && tail[0] == ']' ==> ReadNameItems(s) == Some(([n], tail[1..]))
  {
    DropPrefixOf("}", tail);
  }

  lemma ReadNameItemsStepMore(s: string, t1: string, n: string, more: string, names: seq<string>, rest: string)
    requires DropPrefix(NameKey, s) == Some(t1)
    requires ReadQuoted(t1) == Some((n, "}" + ("," + more)))
    requires ReadNameItems(more) == Some((names, rest))
    ensures ReadNameItems(s) == Some(([n] + names, rest))
  {
    DropPrefixOf("}", "," + more);
    assert ("," + more)[1..] == more;
  }

  /** A list with one name reads back as that name, then what follows its `]`. */
  lemma ReadLastNameItem(names: seq<string>, rest: string)
    requires |names| == 1
    ensures ReadNameItems(NameItems(names) + ("]" + rest)) == Some((names, rest))
  {
    var n := names[0];
    var tail := NameTail(names, rest);
    var t1 := JsonQuote(n) + ("}" + tail);
    NameItemsParts(names, rest);
    DropPrefixOf(NameKey, t1);
    ReadJsonQuotedOf(n, "}" + tail);
    ReadNameItemsStep(NameItems(names) + ("]" + rest), t1, n, tail);
    assert tail[1..] == rest;
    assert [n] == names;
  }

  /** The first name of a longer list, then the names after the comma. */
  lemma ReadNextNameItem(names: seq<string>, rest: string)
    requires |names| > 1
    requires ReadNameItems(NameItems(names[1..]) + ("]" + rest)) == Some((names[1..], rest))
    ensures ReadNameItems(NameItems(names) + ("]" + rest)) == Some((names, rest))
  {
    var n := names[0];
    var more := NameItems(names[1..]) + ("]" + rest);
    NameItemsParts(names, rest);
    ReadNameItemsCons(NameItems(names) + ("]" + rest), n, more, names[1..], rest);
    assert [n] + names[1..] == names;
  }

  lemma {:induction false} ReadNameItemsOf(names: seq<string>, rest: string)
    requires names != []
    ensures ReadNameItems(NameItems(names) + ("]" + rest)) == Some((names, rest))
    decreases |names|
  {
    if |names| == 1 {
      ReadLastNameItem(names, rest);
    } else {
      ReadNameItemsOf(names[1..], rest);
      ReadNextNameItem(names, rest);
    }
  }

  lemma ReadNullOf(rest: string)
    ensures ReadValue(ValueText(Null) + rest) == Some((Null, rest))
  {
    assert ("null" + rest)[..4] == "null";
    assert ("null" + rest)[4..] == rest;
  }

  lemma ReadNameListOf(names: seq<string>, rest: string)
    ensures ReadValue(NameListJson(names) + rest) == Some((NameList(names), rest))
  {
    var s := NameListJson(names) + rest;
    if names == [] {
      assert s == "[]" + rest;
      assert s[2..] == rest;
    } else {
      var items := NameItems(names);
      var t := items + ("]" + rest);
      Assoc("[", items + "]", rest);
      Assoc(items, "]", rest);
      assert s == "[" + t;
      assert s[1..] == t;
      assert items[0] == '{';
      assert s[1] == '{';
      ReadNameItemsOf(names, rest);
    }
  }

  lemma ReadValueOf(v: PatchValue, rest: string)
    requires SafeOp(Replace([], v))
    ensures ReadValue(ValueText(v) + rest) == Some((v, rest))
  {
    match v
    case Null => ReadNullOf(rest);
    case Quoted(raw) => ReadQuotedOf(raw, rest);
    case NameList(names) => ReadNameListOf(names, rest);
  }

  lemma Assoc(a: string, b: string, c: string)
    ensures (a + b) + c == a + (b + c)
  {
  }

  /** The text of one operation, cut where the decoder reads it. */
  lemma RenderOpParts(op: PatchOp, after: string)
    ensures RenderOp(op) + after
         == OpOpen + (Quote(op.path) + (ValueKey + (ValueText(op.value) + (OpClose + after))))
  {
    var v := ValueText(op.value);
    Assoc(OpOpen, Quote(op.path) + (ValueKey + (v + OpClose)), after);
    Assoc(Quote(op.path), ValueKey + (v + OpClose), after);
    Assoc(ValueKey, v + OpClose, after);
    Assoc(v, OpClose, after);
  }

  /** One operation read off the front of a body. */
  lemma ReadOpStep(op: PatchOp, after: string)
    requires SafeOp(op)
    ensures ReadOps(RenderOp(op) + after)
         == (match ReadOps(after) case None => None case Some(ops) => Some([op] + ops))
  {
    var t4 := OpClose + after;
    var t3 := ValueText(op.value) + t4;
    var t2 := ValueKey + t3;
    var t1 := Quote(op.path) + t2;
    RenderOpParts(op, after);
    assert (RenderOp(op) + after)[0] == '{';
    DropPrefixOf(OpOpen, t1);
    ReadQuotedOf(op.path, t2);
    DropPrefixOf(ValueKey, t3);
    ReadValueOf(op.value, t4);
    DropPrefixOf(OpClose, after);
  }

  lemma {:induction false} ReadOpsOf(ops: seq<PatchOp>)
    requires forall i :: 0 <= i < |ops| ==> SafeOp(ops[i])
    ensures ReadOps(Body(ops) + "]") == Some(ops)
    decreases |ops|
  {
    if ops != [] {
      var after := Body(ops[1..]) + "]";
      Assoc(RenderOp(ops[0]), Body(ops[1..]), "]");
      ReadOpsOf(ops[1..]);
      ReadOpStep(ops[0], after);
      assert [ops[0]] + ops[1..] == ops;
    }
  }

  /** Round trip: a document made of safe operations decodes to those operations, in order. */
  lemma DecodeRender(ops: seq<PatchOp>)
    requires forall i :: 0 <= i < |ops| ==> SafeOp(ops[i])
    ensures Decode(Render(ops)) == Some(ops)
  {
    ReadOpsOf(ops);
    var body := Body(ops);
    assert Render(ops) == "[" + (body + "]");
    assert Render(ops)[1..] == body + "]";
  }
}
