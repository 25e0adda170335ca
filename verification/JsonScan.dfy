/** The scan that finds where a JSON value ends (llm/jsonout.py, `_balanced_slice`), and why
    counting one kind of bracket is enough. */
module JsonScan {
  import opened Wrappers
  import opened Decimals
  import opened JsonText

  datatype Kind = Square | Curly

  function Open(k: Kind): char {
    if k.Curly? then '{' else '['
  }

  function Close(k: Kind): char {
    if k.Curly? then '}' else ']'
  }

  datatype State = State(depth: int, inStr: bool, escape: bool)

  const START := State(0, false, false)

  /** Outside strings, at this depth. */
  function Outside(depth: int): State {
    State(depth, false, false)
  }

  function Step(k: Kind, st: State, ch: char): State {
    if st.inStr then
      if st.escape then st.(escape := false)
      else if ch == '\\' then st.(escape := true)
      else if ch == '"' then st.(inStr := false)
      else st
    else if ch == '"' then st.(inStr := true)
    else if ch == Open(k) then st.(depth := st.depth + 1)
    else if ch == Close(k) then st.(depth := st.depth - 1)
    else st
  }

  /** This character is the bracket that brings the depth back to zero. */
  predicate Ends(k: Kind, st: State, ch: char) {
    !st.inStr && ch == Close(k) && st.depth == 1
  }

  /** The state after reading all of `s`. */
  function Run(k: Kind, s: string, st: State): State {
    if s == "" then st else Run(k, s[1..], Step(k, st, s[0]))
  }

  /** Where the depth first comes back to zero. */
  function EndOf(k: Kind, s: string, st: State): (r: Option<nat>)
    ensures r.Some? ==> r.value < |s|
  {
    if s == "" then None
    else if Ends(k, st, s[0]) then Some(0)
    else
      match EndOf(k, s[1..], Step(k, st, s[0]))
      case None => None
      case Some(i) => Some(i + 1)
  }

  lemma {:induction false} ReadOn(k: Kind, a: string, b: string, st: State)
    requires EndOf(k, a, st) == None
    ensures Run(k, a + b, st) == Run(k, b, Run(k, a, st))
    ensures match EndOf(k, b, Run(k, a, st))
            case None => EndOf(k, a + b, st) == None
            case Some(i) => EndOf(k, a + b, st) == Some(|a| + i)
  {
    if a != "" {
      assert (a + b)[1..] == a[1..] + b;
      ReadOn(k, a[1..], b, Step(k, st, a[0]));
    } else {
      assert a + b == b;
    }
  }

  /** Reading `s` from this state ends nowhere and comes back to the state. */
  predicate Loops(k: Kind, s: string, st: State) {
    EndOf(k, s, st) == None && Run(k, s, st) == st
  }

  lemma LoopsJoin(k: Kind, a: string, b: string, st: State)
    requires Loops(k, a, st) && Loops(k, b, st)
    ensures Loops(k, a + b, st)
  {
    ReadOn(k, a, b, st);
  }

  // ---- strings ----

  /** Characters that are no bracket and no quote leave the scan where it is. */
  predicate IsGlue(s: string) {
    forall c | c in s :: c !in {'{', '}', '[', ']', '"'}
  }

  lemma {:induction false} GlueLoops(k: Kind, s: string, depth: int)
    requires IsGlue(s)
    ensures Loops(k, s, Outside(depth))
  {
    if s != "" {
      assert s[0] in s && forall c | c in s[1..] :: c in s;
      GlueLoops(k, s[1..], depth);
    }
  }

  lemma {:induction false} PlainLoops(k: Kind, s: string, depth: int)
    requires forall c | c in s :: c != '"' && c != '\\'
    ensures Loops(k, s, State(depth, true, false))
  {
    if s != "" {
      assert s[0] in s && forall c | c in s[1..] :: c in s;
      PlainLoops(k, s[1..], depth);
    }
  }

  lemma UnitLoops(k: Kind, u: Unit, depth: int)
    requires UnitOk(u)
    ensures Loops(k, PrintUnit(u), State(depth, true, false))
  {
    var st := State(depth, true, false);
    match u
    case Plain(c) => PlainLoops(k, [c], depth);
    case Escape(c) => EscapeLoops(k, c, depth);
    case Hex(digits) =>
      EscapeLoops(k, 'u', depth);
      PlainLoops(k, digits, depth);
      LoopsJoin(k, "\\u", digits, st);
  }

  lemma EscapeLoops(k: Kind, c: char, depth: int)
    ensures Loops(k, ['\\', c], State(depth, true, false))
  {
    var st := State(depth, true, false);
    assert ['\\', c][1..] == [c] && [c][1..] == "";
    assert Run(k, [c], State(depth, true, true)) == st;
    assert EndOf(k, [c], State(depth, true, true)) == None;
  }

  lemma {:induction false} UnitsLoop(k: Kind, units: seq<Unit>, depth: int)
    requires forall u | u in units :: UnitOk(u)
    ensures Loops(k, PrintUnits(units), State(depth, true, false))
  {
    hide Loops;
    if units == [] {
      PlainLoops(k, "", depth);
    } else {
      UnitLoops(k, units[0], depth);
      UnitsLoop(k, units[1..], depth);
      LoopsJoin(k, PrintUnit(units[0]), PrintUnits(units[1..]), State(depth, true, false));
    }
  }

  lemma StringLoops(k: Kind, units: seq<Unit>, depth: int)
    requires forall u | u in units :: UnitOk(u)
    ensures Loops(k, PrintString(units), Outside(depth))
  {
    var body := PrintUnits(units);
    UnitsLoop(k, units, depth);
    ReadOn(k, body, "\"", State(depth, true, false));
    assert ("\"" + body + "\"")[1..] == body + "\"";
  }

  // ---- values ----

  lemma NumberIsGlue(n: Number)
    requires NumberOk(n)
    ensures IsGlue(PrintNumber(n))
  {
  }

  lemma BlankLoops(k: Kind, s: string, depth: int)
    requires IsBlankText(s)
    ensures Loops(k, s, Outside(depth))
  {
    GlueLoops(k, s, depth);
  }

  /** Brackets of either kind around a text that loops make a text that loops. */
  lemma NestLoops(k: Kind, around: Kind, inner: string, depth: int)
    requires depth >= 1 && Loops(k, inner, Outside(depth)) && Loops(k, inner, Outside(depth + 1))
    ensures Loops(k, [Open(around)] + inner + [Close(around)], Outside(depth))
  {
    var text := [Open(around)] + inner + [Close(around)];
    assert text[1..] == inner + [Close(around)];
    var within := if k == around then Outside(depth + 1) else Outside(depth);
    ReadOn(k, inner, [Close(around)], within);
  }

  /** A whole value, read below the top level, leaves the scan where it was. */
  lemma {:induction false} JsonLoops(k: Kind, v: Json, depth: int)
    requires JsonOk(v) && depth >= 1
    ensures Loops(k, PrintJson(v), Outside(depth))
    decreases v
  {
    hide Loops, UnitOk, NumberOk, IsBlankText;
    match v
    case Null => GlueLoops(k, "null", depth);
    case True => GlueLoops(k, "true", depth);
    case False => GlueLoops(k, "false", depth);
    case Num(n) =>
      NumberIsGlue(n);
      GlueLoops(k, PrintNumber(n), depth);
    case Str(units) => StringLoops(k, units, depth);
    case Arr(items, blank) =>
      InsideArrayLoops(k, v, depth);
      InsideArrayLoops(k, v, depth + 1);
      NestLoops(k, Square, if items == [] then blank else PrintItems(items), depth);
    case Obj(members, blank) =>
      InsideObjectLoops(k, v, depth);
      InsideObjectLoops(k, v, depth + 1);
      NestLoops(k, Curly, if members == [] then blank else PrintMembers(members), depth);
  }

  lemma {:induction false} InsideArrayLoops(k: Kind, v: Json, depth: int)
    requires JsonOk(v) && v.Arr? && depth >= 1
    ensures Loops(k, if v.items == [] then v.blank else PrintItems(v.items), Outside(depth))
    decreases v, 0
  {
    hide Loops, PrintItems;
    if v.items == [] {
      BlankLoops(k, v.blank, depth);
    } else {
      ItemsLoop(k, v.items, depth);
    }
  }

  lemma {:induction false} InsideObjectLoops(k: Kind, v: Json, depth: int)
    requires JsonOk(v) && v.Obj? && depth >= 1
    ensures Loops(k, if v.members == [] then v.blank else PrintMembers(v.members), Outside(depth))
    decreases v, 0
  {
    hide Loops, PrintMembers;
    if v.members == [] {
      BlankLoops(k, v.blank, depth);
    } else {
      MembersLoop(k, v.members, depth);
    }
  }

  lemma {:induction false} ItemLoops(k: Kind, i: Item, depth: int)
    requires ItemOk(i) && depth >= 1
    ensures Loops(k, PrintItem(i), Outside(depth))
    decreases i
  {
    hide Loops, PrintJson, JsonOk;
    BlankLoops(k, i.before, depth);
    JsonLoops(k, i.value, depth);
    BlankLoops(k, i.after, depth);
    LoopsJoin(k, i.before, PrintJson(i.value), Outside(depth));
    LoopsJoin(k, i.before + PrintJson(i.value), i.after, Outside(depth));
  }

  lemma {:induction false} ItemsLoop(k: Kind, items: seq<Item>, depth: int)
    requires items != [] && (forall i | i in items :: ItemOk(i)) && depth >= 1
    ensures Loops(k, PrintItems(items), Outside(depth))
    decreases items
  {
    hide Loops, PrintItem, ItemOk;
    var st := Outside(depth);
    ItemLoops(k, items[0], depth);
    if |items| > 1 {
      GlueLoops(k, ",", depth);
      ItemsLoop(k, items[1..], depth);
      LoopsJoin(k, PrintItem(items[0]), ",", st);
      LoopsJoin(k, PrintItem(items[0]) + ",", PrintItems(items[1..]), st);
    }
  }

  lemma {:induction false} MemberLoops(k: Kind, m: Member, depth: int)
    requires IsBlankText(m.before) && (forall u | u in m.name :: UnitOk(u)) && IsBlankText(m.after) && ItemOk(m.item)
    requires depth >= 1
    ensures Loops(k, PrintMember(m), Outside(depth))
    decreases m
  {
    hide Loops, PrintItem, ItemOk, PrintString, UnitOk;
    var st := Outside(depth);
    BlankLoops(k, m.before, depth);
    StringLoops(k, m.name, depth);
    BlankLoops(k, m.after, depth);
    GlueLoops(k, ":", depth);
    ItemLoops(k, m.item, depth);
    LoopsJoin(k, m.before, PrintString(m.name), st);
    LoopsJoin(k, m.before + PrintString(m.name), m.after, st);
    LoopsJoin(k, m.before + PrintString(m.name) + m.after, ":", st);
    LoopsJoin(k, m.before + PrintString(m.name) + m.after + ":", PrintItem(m.item), st);
  }

  lemma {:induction false} MembersLoop(k: Kind, members: seq<Member>, depth: int)
    requires members != [] && depth >= 1
    requires forall m | m in members ::
               IsBlankText(m.before) && (forall u | u in m.name :: UnitOk(u)) && IsBlankText(m.after) && ItemOk(m.item)
    ensures Loops(k, PrintMembers(members), Outside(depth))
    decreases members
  {
    hide Loops, PrintMember, ItemOk, UnitOk, IsBlankText;
    var st := Outside(depth);
    MemberLoops(k, members[0], depth);
    if |members| > 1 {
      GlueLoops(k, ",", depth);
      MembersLoop(k, members[1..], depth);
      LoopsJoin(k, PrintMember(members[0]), ",", st);
      LoopsJoin(k, PrintMember(members[0]) + ",", PrintMembers(members[1..]), st);
    }
  }

  predicate IsContainer(v: Json) {
    v.Arr? || v.Obj?
  }

  function KindOf(v: Json): Kind
    requires IsContainer(v)
  {
    if v.Arr? then Square else Curly
  }

  /** The scan of an array or object, counting its own kind of bracket only, ends at its last
      character, whatever follows. */
  lemma ScanFindsTheEnd(v: Json, suffix: string)
    requires JsonOk(v) && IsContainer(v)
    ensures |PrintJson(v)| >= 2
    ensures EndOf(KindOf(v), PrintJson(v) + suffix, START) == Some(|PrintJson(v)| - 1)
    ensures PrintJson(v)[0] == Open(KindOf(v)) && PrintJson(v)[|PrintJson(v)| - 1] == Close(KindOf(v))
  {
    hide Loops, JsonOk, PrintItems, PrintMembers;
    var k := KindOf(v);
    var inner: string;
    if v.Arr? {
      inner := if v.items == [] then v.blank else PrintItems(v.items);
      InsideArrayLoops(k, v, 1);
    } else {
      inner := if v.members == [] then v.blank else PrintMembers(v.members);
      InsideObjectLoops(k, v, 1);
    }
    assert PrintJson(v) == [Open(k)] + inner + [Close(k)];
    BracketsEnd(k, inner, suffix);
  }

  lemma BracketsEnd(k: Kind, inner: string, suffix: string)
    requires Loops(k, inner, Outside(1))
    ensures EndOf(k, [Open(k)] + inner + [Close(k)] + suffix, START) == Some(|inner| + 1)
  {
    var text := [Open(k)] + inner + [Close(k)] + suffix;
    assert text[1..] == inner + ([Close(k)] + suffix);
    ReadOn(k, inner, [Close(k)] + suffix, Outside(1));
  }
}
