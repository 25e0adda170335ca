/** Texts of JSON values, with white space and escapes (RFC 8259, sections 2 to 7). */
module JsonText {
  import opened Wrappers
  import opened Decimals

  /** One character of a string, as written: section 7 of RFC 8259. */
  datatype Unit = Plain(c: char) | Escape(c: char) | Hex(digits: string)

  /** A number: section 6 of RFC 8259. */
  datatype Number = Number(negative: bool, whole: string, frac: Option<string>, exp: Option<Exponent>)

  datatype Exponent = Exponent(letter: char, sign: string, digits: string)

  datatype Json =
    | Null
    | True
    | False
    | Num(number: Number)
    | Str(units: seq<Unit>)
    | Arr(items: seq<Item>, blank: string)
    | Obj(members: seq<Member>, blank: string)

  /** An array element with the white space around it. */
  datatype Item = Item(before: string, value: Json, after: string)

  /** An object member: white space, a name, white space, a colon, and a value. */
  datatype Member = Member(before: string, name: seq<Unit>, after: string, item: Item)

  // ---- which of them are JSON ----

  predicate IsBlankText(s: string) {
    forall c | c in s :: c in {' ', '\t', '\n', '\r'}
  }

  predicate IsHexDigit(c: char) {
    IsDigit(c) || 'a' <= c <= 'f' || 'A' <= c <= 'F'
  }

  predicate UnitOk(u: Unit) {
    match u
    case Plain(c) => c >= ' ' && c != '"' && c != '\\'
    case Escape(c) => c in {'"', '\\', '/', 'b', 'f', 'n', 'r', 't'}
    case Hex(digits) => |digits| == 4 && forall c | c in digits :: IsHexDigit(c)
  }

  predicate NumberOk(n: Number) {
    && IsNumeral(n.whole) && (n.whole[0] == '0' ==> |n.whole| == 1)
    && (n.frac.Some? ==> IsNumeral(n.frac.value))
    && (n.exp.Some? ==>
          n.exp.value.letter in {'e', 'E'} && n.exp.value.sign in {"", "+", "-"} && IsNumeral(n.exp.value.digits))
  }

  predicate ItemOk(i: Item) {
    IsBlankText(i.before) && JsonOk(i.value) && IsBlankText(i.after)
  }

  predicate JsonOk(v: Json) {
    match v
    case Null | True | False => true
    case Num(n) => NumberOk(n)
    case Str(units) => forall u | u in units :: UnitOk(u)
    case Arr(items, blank) => IsBlankText(blank) && forall i | i in items :: ItemOk(i)
    case Obj(members, blank) =>
      IsBlankText(blank)
      && forall m | m in members ::
           IsBlankText(m.before) && (forall u | u in m.name :: UnitOk(u)) && IsBlankText(m.after) && ItemOk(m.item)
  }

  // ---- how they are written ----

  function PrintUnit(u: Unit): string {
    match u
    case Plain(c) => [c]
    case Escape(c) => ['\\', c]
    case Hex(digits) => "\\u" + digits
  }

  function PrintUnits(units: seq<Unit>): string {
    if units == [] then "" else PrintUnit(units[0]) + PrintUnits(units[1..])
  }

  function PrintString(units: seq<Unit>): string {
    "\"" + PrintUnits(units) + "\""
  }

  function PrintNumber(n: Number): string {
    (if n.negative then "-" else "") + n.whole
    + (if n.frac.Some? then "." + n.frac.value else "")
    + (if n.exp.Some? then [n.exp.value.letter] + n.exp.value.sign + n.exp.value.digits else "")
  }

  function PrintItem(i: Item): string {
    i.before + PrintJson(i.value) + i.after
  }

  function PrintItems(items: seq<Item>): string {
    if items == [] then ""
    else if |items| == 1 then PrintItem(items[0])
    else PrintItem(items[0]) + "," + PrintItems(items[1..])
  }

  function PrintMember(m: Member): string {
    m.before + PrintString(m.name) + m.after + ":" + PrintItem(m.item)
  }

  function PrintMembers(members: seq<Member>): string {
    if members == [] then ""
    else if |members| == 1 then PrintMember(members[0])
    else PrintMember(members[0]) + "," + PrintMembers(members[1..])
  }

  function PrintJson(v: Json): string {
    match v
    case Null => "null"
    case True => "true"
    case False => "false"
    case Num(n) => PrintNumber(n)
    case Str(units) => PrintString(units)
    case Arr(items, blank) => "[" + (if items == [] then blank else PrintItems(items)) + "]"
    case Obj(members, blank) => "{" + (if members == [] then blank else PrintMembers(members)) + "}"
  }
}
