/**
 * JSON values and the text form `JSON.stringify` writes and `JSON.parse` reads,
 * for the values the application stores: null, booleans, integers, strings,
 * arrays and objects (objects as insertion-ordered member lists).
 */
module Json {
  import opened Wrappers
  import opened Text
  import Assoc

  datatype Json =
    | JNull
    | JBool(b: bool)
    | JNum(n: int)
    | JStr(s: string)
    | JArr(items: seq<Json>)
    | JObj(fields: seq<(string, Json)>)

  /** JavaScript truthiness of a parsed value. */
  predicate Truthy(j: Json) {
    match j
    case JNull => false
    case JBool(b) => b
    case JNum(n) => n != 0
    case JStr(s) => s != ""
    case _ => true
  }

  /** `j.key` on a parsed value: only an object has members. */
  function Member(j: Json, key: string): Option<Json> {
    if j.JObj? then Assoc.Lookup(j.fields, key) else None
  }

  // ---------------------------------------------------------------- writing

  function Escape(s: string): string {
    if s == [] then []
    else (if s[0] == '"' || s[0] == '\\' then ['\\', s[0]] else [s[0]]) + Escape(s[1..])
  }

  function Quote(s: string): string {
    "\"" + Escape(s) + "\""
  }

  /** `JSON.stringify(j)` without indentation. */
  function Stringify(j: Json): string
    decreases j, 1
  {
    match j
    case JNull => "null"
    case JBool(b) => if b then "true" else "false"
    case JNum(n) => IntToString(n)
    case JStr(s) => Quote(s)
    case JArr(items) => "[" + Items(items) + "]"
    case JObj(fields) =>
      assert forall i :: 0 <= i < |fields| ==> fields[i] in fields;
      "{" + Fields(fields, j) + "}"
  }

  function Items(items: seq<Json>): string
    decreases items, 0
  {
    if items == [] then ""
    else if |items| == 1 then Stringify(items[0])
    else Stringify(items[0]) + "," + Items(items[1..])
  }

  /** The members of the object `owner` (a ghost bound for termination). */
  function Fields(fields: seq<(string, Json)>, ghost owner: Json): string
    requires forall i :: 0 <= i < |fields| ==> fields[i].1 < owner
    decreases owner, 0, |fields|
  {
    if fields == [] then ""
    else
      var m := Quote(fields[0].0) + ":" + Stringify(fields[0].1);
      if |fields| == 1 then m else m + "," + Fields(fields[1..], owner)
  }

  // ---------------------------------------------------------------- reading

  predicate IsWs(c: char) {
    c == ' ' || c == '\t' || c == '\n' || c == '\r'
  }

  function SkipWs(s: string): (r: string)
    ensures |r| <= |s|
    ensures r == [] || !IsWs(r[0])
  {
    if s != [] && IsWs(s[0]) then SkipWs(s[1..]) else s
  }

  /** The longest prefix of `s` made of decimal digits. */
  function TakeDigits(s: string): (d: string)
    ensures |d| <= |s| && AllDigits(d) && d == s[..|d|]
  {
    if s != [] && IsDigit(s[0]) then [s[0]] + TakeDigits(s[1..]) else []
  }

  function Unescape(c: char): Option<char> {
    if c == '"' || c == '\\' || c == '/' then Some(c)
    else if c == 'n' then Some('\n')
    else if c == 't' then Some('\t')
    else if c == 'r' then Some('\r')
    else if c == 'b' then Some('\U{8}')
    else if c == 'f' then Some('\U{C}')
    else None
  }

  /** The body of a string literal whose opening quote has been read. */
  function ParseString(s: string): (r: Option<(string, string)>)
    ensures r.Some? ==> |r.value.1| < |s|
    decreases |s|
  {
    if s == [] then None
    else if s[0] == '"' then Some(([], s[1..]))
    else if s[0] == '\\' then
      if |s| < 2 || Unescape(s[1]).None? then None
      else match ParseString(s[2..])
        case None => None
        case Some((body, rest)) => Some(([Unescape(s[1]).value] + body, rest))
    else match ParseString(s[1..])
      case None => None
      case Some((body, rest)) => Some(([s[0]] + body, rest))
  }

  function ParseLiteral(t: string, word: string, v: Json): (r: Option<(Json, string)>)
    requires |word| > 0
    ensures r.Some? ==> |r.value.1| < |t|
  {
    if StartsWith(t, word) then Some((v, t[|word|..])) else None
  }

  /** An integer: an optional minus sign, then digits without a leading zero. */
  function ParseNumber(t: string): (r: Option<(Json, string)>)
    ensures r.Some? ==> |r.value.1| < |t|
  {
    var neg := t != [] && t[0] == '-';
    var body := if neg then t[1..] else t;
    var ds := TakeDigits(body);
    if ds == [] || (|ds| > 1 && ds[0] == '0') then None
    else
      var n: int := DigitsValue(ds);
      Some((JNum(if neg then -n else n), body[|ds|..]))
  }

  function ParseValue(s: string): (r: Option<(Json, string)>)
    ensures r.Some? ==> |r.value.1| < |s|
    decreases |s|, 0
  {
    var t := SkipWs(s);
    if t == [] then None
    else if t[0] == 'n' then ParseLiteral(t, "null", JNull)
    else if t[0] == 't' then ParseLiteral(t, "true", JBool(true))
    else if t[0] == 'f' then ParseLiteral(t, "false", JBool(false))
    else if t[0] == '"' then
      match ParseString(t[1..])
      case None => None
      case Some((str, rest)) => Some((JStr(str), rest))
    else if t[0] == '-' || IsDigit(t[0]) then ParseNumber(t)
    else if t[0] == '[' then ParseArray(t[1..])
    else if t[0] == '{' then ParseObject(t[1..])
    else None
  }

  /** An array whose `[` has been read. */
  function ParseArray(s: string): (r: Option<(Json, string)>)
    ensures r.Some? ==> |r.value.1| < |s|
    decreases |s|, 3
  {
    var t := SkipWs(s);
    if t != [] && t[0] == ']' then Some((JArr([]), t[1..]))
    else match ParseElements(s)
      case None => None
      case Some((items, rest)) => Some((JArr(items), rest))
  }

  /** One or more comma-separated values, then the closing `]`. */
  function ParseElements(s: string): (r: Option<(seq<Json>, string)>)
    ensures r.Some? ==> |r.value.1| < |s|
    decreases |s|, 2
  {
    match ParseValue(s)
    case None => None
    case Some((v, rest)) =>
      var u := SkipWs(rest);
      if u == [] then None
      else if u[0] == ',' then
        match ParseElements(u[1..])
        case None => None
        case Some((vs, rest2)) => Some(([v] + vs, rest2))
      else if u[0] == ']' then Some(([v], u[1..]))
      else None
  }

  /** An object whose `{` has been read. */
  function ParseObject(s: string): (r: Option<(Json, string)>)
    ensures r.Some? ==> |r.value.1| < |s|
    decreases |s|, 3
  {
    var t := SkipWs(s);
    if t != [] && t[0] == '}' then Some((JObj([]), t[1..]))
    else match ParseMembers(s)
      case None => None
      case Some((fields, rest)) => Some((JObj(fields), rest))
  }

  /** One or more comma-separated `"key": value` members, then the closing `}`. */
  function ParseMembers(s: string): (r: Option<(seq<(string, Json)>, string)>)
    ensures r.Some? ==> |r.value.1| < |s|
    decreases |s|, 2
  {
    var t := SkipWs(s);
    if t == [] || t[0] != '"' then None
    else match ParseString(t[1..])
      case None => None
      case Some((key, r1)) =>
        var u := SkipWs(r1);
        if u == [] || u[0] != ':' then None
        else match ParseValue(u[1..])
          case None => None
          case Some((v, r2)) =>
            var w := SkipWs(r2);
            if w == [] then None
            else if w[0] == ',' then
              match ParseMembers(w[1..])
              case None => None
              case Some((ms, r3)) => Some(([(key, v)] + ms, r3))
            else if w[0] == '}' then Some(([(key, v)], w[1..]))
            else None
  }

  /** `JSON.parse(s)`: one value, surrounded by nothing but whitespace; None where it throws. */
  function Parse(s: string): Option<Json> {
    match ParseValue(s)
    case None => None
    case Some((j, rest)) => if SkipWs(rest) == [] then Some(j) else None
  }

  // ---------------------------------------------------------------- round trip

  /** What may follow a value inside a JSON text: the end, a comma or a closing bracket. */
  predicate Follows(rest: string) {
    rest == [] || rest[0] == ',' || rest[0] == ']' || rest[0] == '}'
  }

  lemma {:induction false} EscapeRoundTrip(x: string, rest: string)
    ensures ParseString(Escape(x) + "\"" + rest) == Some((x, rest))
    decreases |x|
  {
    var s := Escape(x) + "\"" + rest;
    if x == [] {
      assert s == "\"" + rest;
      assert s[1..] == rest;
    } else {
      var c := x[0];
      EscapeRoundTrip(x[1..], rest);
      var tail := Escape(x[1..]) + "\"" + rest;
      if c == '"' || c == '\\' {
        assert s == ['\\', c] + tail;
        assert s[2..] == tail;
      } else {
        assert s == [c] + tail;
        assert s[1..] == tail;
      }
      assert x == [c] + x[1..];
    }
  }

  lemma {:induction false} TakeDigitsOf(d: string, rest: string)
    requires AllDigits(d)
    requires rest == [] || !IsDigit(rest[0])
    ensures TakeDigits(d + rest) == d
    decreases |d|
  {
    if d == [] {
      assert d + rest == rest;
    } else {
      TakeDigitsOf(d[1..], rest);
      assert (d + rest)[1..] == d[1..] + rest;
      assert d == [d[0]] + d[1..];
    }
  }

  /** How `ParseValue` dispatches on the first character of a value. */
  lemma ParseValueOn(t: string)
    requires t != [] && !IsWs(t[0])
    ensures t[0] == 'n' ==> ParseValue(t) == ParseLiteral(t, "null", JNull)
    ensures t[0] == 't' ==> ParseValue(t) == ParseLiteral(t, "true", JBool(true))
    ensures t[0] == 'f' ==> ParseValue(t) == ParseLiteral(t, "false", JBool(false))
    ensures t[0] == '"' ==>
      ParseValue(t) == (match ParseString(t[1..]) case None => None case Some((str, rest)) => Some((JStr(str), rest)))
    ensures t[0] == '-' || IsDigit(t[0]) ==> ParseValue(t) == ParseNumber(t)
    ensures t[0] == '[' ==> ParseValue(t) == ParseArray(t[1..])
    ensures t[0] == '{' ==> ParseValue(t) == ParseObject(t[1..])
  {
    assert SkipWs(t) == t;
  }

  lemma ParseNumberOf(neg: bool, digits: string, rest: string)
    requires AllDigits(digits) && digits != [] && (digits[0] == '0' ==> |digits| == 1)
    requires TakeDigits(digits + rest) == digits
    ensures var n: int := DigitsValue(digits);
      ParseNumber((if neg then "-" else "") + digits + rest) == Some((JNum(if neg then -n else n), rest))
  {
    var body := digits + rest;
    var t := (if neg then "-" else "") + body;
    assert (if neg then "-" else "") + digits + rest == t;
    assert body[|digits|..] == rest;
    if neg {
      assert t[1..] == body;
    } else {
      assert t == body;
      assert t[0] == digits[0];
    }
  }

  lemma NumberRoundTrip(n: int, rest: string)
    requires rest == [] || !IsDigit(rest[0])
    ensures ParseNumber(IntToString(n) + rest) == Some((JNum(n), rest))
  {
    var m: nat := if n < 0 then -n else n;
    var digits := NatToString(m);
    TakeDigitsOf(digits, rest);
    NatToStringRoundTrip(m);
    ParseNumberOf(n < 0, digits, rest);
    assert IntToString(n) == (if n < 0 then "-" else "") + digits;
  }

  /** The first character of every written value starts a value for the parser. */
  lemma StringifyStart(j: Json)
    ensures |Stringify(j)| > 0
    ensures var c := Stringify(j)[0];
      c == 'n' || c == 't' || c == 'f' || c == '"' || c == '[' || c == '{' || c == '-' || IsDigit(c)
  {
  }

  /** A keyword (`null`, `true`, `false`) reads back as its value. */
  lemma LiteralRoundTrip(word: string, v: Json, rest: string)
    requires word == "null" || word == "true" || word == "false"
    requires v == (if word == "null" then JNull else JBool(word == "true"))
    ensures ParseValue(word + rest) == Some((v, rest))
  {
    var s := word + rest;
    assert s[..|word|] == word && s[|word|..] == rest;
    assert s[0] == word[0];
    ParseValueOn(s);
  }

  lemma StringRoundTrip(x: string, rest: string)
    ensures ParseValue(Quote(x) + rest) == Some((JStr(x), rest))
  {
    var s := Quote(x) + rest;
    assert s == "\"" + (Escape(x) + "\"" + rest);
    assert s[0] == '"' && s[1..] == Escape(x) + "\"" + rest;
    ParseValueOn(s);
    EscapeRoundTrip(x, rest);
  }

  lemma IntRoundTrip(n: int, rest: string)
    requires Follows(rest)
    ensures ParseValue(IntToString(n) + rest) == Some((JNum(n), rest))
  {
    var s := IntToString(n) + rest;
    StringifyStart(JNum(n));
    assert s[0] == IntToString(n)[0];
    ParseValueOn(s);
    NumberRoundTrip(n, rest);
  }

  lemma ScalarRoundTrip(j: Json, rest: string)
    requires !j.JArr? && !j.JObj?
    requires Follows(rest)
    ensures ParseValue(Stringify(j) + rest) == Some((j, rest))
  {
    match j
    case JNull => LiteralRoundTrip("null", j, rest);
    case JBool(b) => LiteralRoundTrip(if b then "true" else "false", j, rest);
    case JNum(n) => IntRoundTrip(n, rest);
    case JStr(x) => StringRoundTrip(x, rest);
  }

  lemma {:induction false} ValueRoundTrip(j: Json, rest: string)
    requires Follows(rest)
    ensures ParseValue(Stringify(j) + rest) == Some((j, rest))
    decreases j, 2
  {
    match j
    case JArr(items) =>
      ArrayRoundTrip(items, rest);
    case JObj(fields) =>
      ObjectRoundTrip(fields, rest);
    case _ =>
      ScalarRoundTrip(j, rest);
  }

  /** How `ParseValue` reads a text that opens with a bracket. */
  lemma ParseOpening(open: char, inner: string)
    requires open == '[' || open == '{'
    ensures open == '[' ==> ParseValue([open] + inner) == ParseArray(inner)
    ensures open == '{' ==> ParseValue([open] + inner) == ParseObject(inner)
  {
    var s := [open] + inner;
    assert s[0] == open && s[1..] == inner;
    ParseValueOn(s);
  }

  /** An empty array or object: the closing bracket comes first. */
  lemma ParseEmpty(rest: string)
    ensures ParseArray("]" + rest) == Some((JArr([]), rest))
    ensures ParseObject("}" + rest) == Some((JObj([]), rest))
  {
    assert SkipWs("]" + rest) == "]" + rest;
    assert SkipWs("}" + rest) == "}" + rest;
    assert ("]" + rest)[1..] == rest;
    assert ("}" + rest)[1..] == rest;
  }

  /** A non-empty array or object: the members are read from the first character on. */
  lemma ParseNonEmpty(inner: string)
    requires inner != [] && !IsWs(inner[0]) && inner[0] != ']' && inner[0] != '}'
    ensures ParseArray(inner) ==
      (match ParseElements(inner) case None => None case Some((items, r)) => Some((JArr(items), r)))
    ensures ParseObject(inner) ==
      (match ParseMembers(inner) case None => None case Some((fields, r)) => Some((JObj(fields), r)))
  {
    assert SkipWs(inner) == inner;
  }

  lemma {:induction false} ArrayRoundTrip(items: seq<Json>, rest: string)
    requires Follows(rest)
    ensures ParseValue(Stringify(JArr(items)) + rest) == Some((JArr(items), rest))
    decreases items, 1
  {
    var inner := Items(items) + ("]" + rest);
    assert Stringify(JArr(items)) + rest == ['['] + inner;
    ParseOpening('[', inner);
    if items == [] {
      assert inner == "]" + rest;
      ParseEmpty(rest);
    } else {
      StringifyStart(items[0]);
      assert inner[0] == Stringify(items[0])[0];
      ParseNonEmpty(inner);
      ItemsRoundTrip(items, rest);
    }
  }

  lemma {:induction false} ObjectRoundTrip(fields: seq<(string, Json)>, rest: string)
    requires Follows(rest)
    ensures ParseValue(Stringify(JObj(fields)) + rest) == Some((JObj(fields), rest))
    decreases JObj(fields), 1
  {
    var j := JObj(fields);
    assert forall i :: 0 <= i < |fields| ==> fields[i] in fields;
    var inner := Fields(fields, j) + ("}" + rest);
    assert Stringify(j) + rest == ['{'] + inner;
    ParseOpening('{', inner);
    if fields == [] {
      assert inner == "}" + rest;
      ParseEmpty(rest);
    } else {
      assert inner[0] == '"';
      ParseNonEmpty(inner);
      FieldsRoundTrip(fields, j, rest);
    }
  }

  /** How `ParseElements` reads one value and what follows it. */
  lemma ParseElementsStep(s: string, v: Json, r: string)
    requires ParseValue(s) == Some((v, r))
    requires r != [] && !IsWs(r[0])
    ensures ParseElements(s) ==
      if r[0] == ',' then
        (match ParseElements(r[1..]) case None => None case Some((vs, r2)) => Some(([v] + vs, r2)))
      else if r[0] == ']' then Some(([v], r[1..]))
      else None
  {
    assert SkipWs(r) == r;
  }

  /** The written items, split after the first value. */
  lemma ItemsHead(items: seq<Json>, tail: string)
    requires items != []
    ensures Items(items) + tail ==
      Stringify(items[0]) + (if |items| == 1 then tail else "," + (Items(items[1..]) + tail))
  {
  }

  /** The last value of an array, then `]`. */
  lemma ElementsLast(text: string, v: Json, rest: string)
    requires ParseValue(text + ("]" + rest)) == Some((v, "]" + rest))
    ensures ParseElements(text + ("]" + rest)) == Some(([v], rest))
  {
    ParseElementsStep(text + ("]" + rest), v, "]" + rest);
    assert ("]" + rest)[1..] == rest;
  }

  /** A value of an array followed by a comma and further values. */
  lemma ElementsCons(text: string, v: Json, more: string, vs: seq<Json>, rest: string)
    requires ParseValue(text + ("," + more)) == Some((v, "," + more))
    requires ParseElements(more) == Some((vs, rest))
    ensures ParseElements(text + ("," + more)) == Some(([v] + vs, rest))
  {
    ParseElementsStep(text + ("," + more), v, "," + more);
    assert ("," + more)[1..] == more;
  }

  lemma {:induction false} ItemsRoundTrip(items: seq<Json>, rest: string)
    requires items != []
    ensures ParseElements(Items(items) + ("]" + rest)) == Some((items, rest))
    decreases items, 0
  {
    ItemsHead(items, "]" + rest);
    if |items| == 1 {
      ValueRoundTrip(items[0], "]" + rest);
      ElementsLast(Stringify(items[0]), items[0], rest);
      assert items == [items[0]];
    } else {
      var more := Items(items[1..]) + ("]" + rest);
      ValueRoundTrip(items[0], "," + more);
      ItemsRoundTrip(items[1..], rest);
      ElementsCons(Stringify(items[0]), items[0], more, items[1..], rest);
      assert items == [items[0]] + items[1..];
    }
  }

  /** How `ParseMembers` reads one member whose key, colon and value have been recognised. */
  lemma ParseMembersStep(s: string, key: string, r1: string, v: Json, r2: string)
    requires s != [] && s[0] == '"' && ParseString(s[1..]) == Some((key, r1))
    requires r1 != [] && r1[0] == ':' && ParseValue(r1[1..]) == Some((v, r2))
    requires r2 != [] && !IsWs(r2[0])
    ensures ParseMembers(s) ==
      if r2[0] == ',' then
        (match ParseMembers(r2[1..])
         case None => None
         case Some((ms, r)) => Some(([(key, v)] + ms, r)))
      else if r2[0] == '}' then Some(([(key, v)], r2[1..]))
      else None
  {
    assert SkipWs(s) == s;
    assert SkipWs(r1) == r1;
    assert SkipWs(r2) == r2;
  }

  /** A quoted key reads back as itself, leaving what follows the closing quote. */
  lemma QuotedKey(key: string, after: string)
    ensures var s := Quote(key) + after;
      s != [] && s[0] == '"' && ParseString(s[1..]) == Some((key, after))
  {
    var s := Quote(key) + after;
    assert s == "\"" + (Escape(key) + "\"" + after);
    EscapeRoundTrip(key, after);
  }

  /** Reading one member `"key":value` of an object, given that the value's text reads back. */
  lemma ParseMemberOf(key: string, text: string, value: Json, closing: string)
    requires ParseValue(text + closing) == Some((value, closing))
    requires closing != [] && !IsWs(closing[0])
    ensures ParseMembers(Quote(key) + (":" + (text + closing))) ==
      if closing[0] == ',' then
        (match ParseMembers(closing[1..])
         case None => None
         case Some((ms, r)) => Some(([(key, value)] + ms, r)))
      else if closing[0] == '}' then Some(([(key, value)], closing[1..]))
      else None
  {
    var afterKey := ":" + (text + closing);
    QuotedKey(key, afterKey);
    assert afterKey[0] == ':' && afterKey[1..] == text + closing;
    ParseMembersStep(Quote(key) + afterKey, key, afterKey, value, closing);
  }

  /** The last member of an object, then `}`. */
  lemma MembersLast(key: string, text: string, v: Json, rest: string)
    requires ParseValue(text + ("}" + rest)) == Some((v, "}" + rest))
    ensures ParseMembers(Quote(key) + (":" + (text + ("}" + rest)))) == Some(([(key, v)], rest))
  {
    ParseMemberOf(key, text, v, "}" + rest);
    assert ("}" + rest)[1..] == rest;
  }

  /** A member of an object followed by a comma and further members. */
  lemma MembersCons(key: string, text: string, v: Json, more: string, ms: seq<(string, Json)>, rest: string)
    requires ParseValue(text + ("," + more)) == Some((v, "," + more))
    requires ParseMembers(more) == Some((ms, rest))
    ensures ParseMembers(Quote(key) + (":" + (text + ("," + more)))) == Some(([(key, v)] + ms, rest))
  {
    ParseMemberOf(key, text, v, "," + more);
    assert ("," + more)[1..] == more;
  }

  /** The written members, split after the first value. */
  lemma FieldsHead(fields: seq<(string, Json)>, owner: Json, tail: string)
    requires fields != []
    requires forall i :: 0 <= i < |fields| ==> fields[i].1 < owner
    ensures Fields(fields, owner) + tail ==
      Quote(fields[0].0) + (":" + (Stringify(fields[0].1) +
        (if |fields| == 1 then tail else "," + (Fields(fields[1..], owner) + tail))))
  {
  }

  lemma {:induction false} FieldsRoundTrip(fields: seq<(string, Json)>, owner: Json, rest: string)
    requires fields != []
    requires forall i :: 0 <= i < |fields| ==> fields[i].1 < owner
    ensures ParseMembers(Fields(fields, owner) + ("}" + rest)) == Some((fields, rest))
    decreases owner, 0, |fields|
  {
    FieldsHead(fields, owner, "}" + rest);
    if |fields| == 1 {
      ValueRoundTrip(fields[0].1, "}" + rest);
      MembersLast(fields[0].0, Stringify(fields[0].1), fields[0].1, rest);
      assert fields == [fields[0]];
    } else {
      var more := Fields(fields[1..], owner) + ("}" + rest);
      ValueRoundTrip(fields[0].1, "," + more);
      FieldsRoundTrip(fields[1..], owner, rest);
      MembersCons(fields[0].0, Stringify(fields[0].1), fields[0].1, more, fields[1..], rest);
      assert fields == [fields[0]] + fields[1..];
    }
  }

  /** `JSON.parse(JSON.stringify(j))` gives back `j`. */
  lemma RoundTrip(j: Json)
    ensures Parse(Stringify(j)) == Some(j)
  {
    ValueRoundTrip(j, []);
    assert Stringify(j) + [] == Stringify(j);
  }
}
