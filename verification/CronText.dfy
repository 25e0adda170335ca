/** Reading cron expressions (schedules.py, `_parse_cron_field`, `_parse_cron` and `validate_cron`). */
module CronText {
  import opened Wrappers
  import opened Text
  import opened Decimals
  import opened Calendar
  import opened CronFire

  datatype Field = MinuteField | HourField | DayField | MonthField | WeekdayField

  function Lowest(field: Field): nat {
    match field
    case DayField | MonthField => 1
    case MinuteField | HourField | WeekdayField => 0
  }

  function Highest(field: Field): nat {
    match field
    case MinuteField => 59
    case HourField => 23
    case DayField => 31
    case MonthField => 12
    case WeekdayField => 7
  }

  datatype CronError = BadStep | BadRange | Reversed | StepNeedsRange | Invalid | OutOfRange | WrongFieldCount(n: nat)

  /** One entry of a comma list. */
  datatype Item = Star(step: nat) | Range(first: nat, last: nat, step: nat) | Single(value: nat)

  // ---- strings ----

  /** `s.partition(c)`: what stands before the first `c`, whether there is one, and what follows it. */
  function Partition(s: string, c: char): (r: (string, bool, string))
    ensures c !in r.0
    ensures s == if r.1 then r.0 + [c] + r.2 else r.0
  {
    if s == "" then ("", false, "")
    else if s[0] == c then ("", true, s[1..])
    else var rest := Partition(s[1..], c); ([s[0]] + rest.0, rest.1, rest.2)
  }

  lemma {:induction false} PartitionWhole(a: string, c: char)
    requires c !in a
    ensures Partition(a, c) == (a, false, "")
  {
    if a != "" {
      assert a[0] in a && forall x | x in a[1..] :: x in a;
      PartitionWhole(a[1..], c);
      assert [a[0]] + a[1..] == a;
    }
  }

  lemma {:induction false} PartitionFirst(a: string, c: char, b: string)
    requires c !in a
    ensures Partition(a + [c] + b, c) == (a, true, b)
  {
    var s := a + [c] + b;
    if a != "" {
      assert a[0] in a && forall x | x in a[1..] :: x in a;
      PartitionFirst(a[1..], c, b);
      assert s[0] == a[0] && s[1..] == a[1..] + [c] + b;
      assert [a[0]] + a[1..] == a;
    } else {
      assert s[1..] == b;
    }
  }

  lemma PartitionFinds(a: string, c: char, b: string)
    requires c !in a
    ensures Partition(a + [c] + b, c) == (a, true, b)
    ensures Partition(a, c) == (a, false, "")
  {
    hide Partition;
    PartitionFirst(a, c, b);
    PartitionWhole(a, c);
  }

  predicate IsWord(w: string) {
    w != "" && forall c | c in w :: !IsSpace(c)
  }

  function WordLength(s: string): (n: nat)
    ensures n <= |s|
    ensures s != "" && !IsSpace(s[0]) ==> 0 < n
  {
    if s == "" || IsSpace(s[0]) then 0 else 1 + WordLength(s[1..])
  }

  /** `s.split()` */
  function Words(s: string): seq<string>
    decreases |s|
  {
    var r := StripLeft(s);
    if r == "" then [] else [r[..WordLength(r)]] + Words(r[WordLength(r)..])
  }

  lemma {:induction false} WordLengthEnds(s: string)
    ensures forall k :: 0 <= k < WordLength(s) ==> !IsSpace(s[k])
  {
    if s != "" && !IsSpace(s[0]) {
      WordLengthEnds(s[1..]);
      forall k | 0 <= k < WordLength(s) ensures !IsSpace(s[k]) {
        if k > 0 { assert s[k] == s[1..][k - 1]; }
      }
    }
  }

  lemma {:induction false} WordsAreWords(s: string)
    ensures forall i :: 0 <= i < |Words(s)| ==> IsWord(Words(s)[i])
    decreases |s|
  {
    hide StripLeft;
    var r := StripLeft(s);
    if r != "" {
      var n := WordLength(r);
      WordLengthEnds(r);
      assert IsWord(r[..n]);
      var rest := Words(r[n..]);
      WordsAreWords(r[n..]);
      assert Words(s) == [r[..n]] + rest;
    }
  }

  /** `" ".join(words)` */
  function Spaced(words: seq<string>): string {
    Rejoin(words, ' ')
  }

  lemma {:induction false} WordLengthIs(w: string, rest: string)
    requires forall c | c in w :: !IsSpace(c)
    requires rest == "" || IsSpace(rest[0])
    ensures WordLength(w + rest) == |w|
  {
    if w != "" {
      assert (w + rest)[1..] == w[1..] + rest;
      WordLengthIs(w[1..], rest);
    } else {
      assert w + rest == rest;
    }
  }

  lemma SplitOffWord(w: string, rest: string)
    requires IsWord(w) && (rest == "" || IsSpace(rest[0]))
    ensures Words(w + rest) == [w] + Words(rest)
  {
    hide WordLength;
    var s := w + rest;
    assert s[0] == w[0] && w[0] in w;
    assert StripLeft(s) == s;
    WordLengthIs(w, rest);
    assert s[..|w|] == w;
    assert s[|w|..] == rest;
  }

  lemma LeadingSpace(s: string)
    ensures Words(" " + s) == Words(s)
  {
    assert (" " + s)[1..] == s;
    assert StripLeft(" " + s) == StripLeft(s);
  }

  lemma NoWords()
    ensures Words("") == []
  {
  }

  lemma OneWordMore(word: string, tail: string)
    requires IsWord(word)
    ensures Words(word + [' '] + tail) == [word] + Words(tail)
  {
    hide Words;
    LeadingSpace(tail);
    SplitOffWord(word, " " + tail);
    assert word + (" " + tail) == word + [' '] + tail;
  }

  lemma {:induction false} WordsOfSpaced(words: seq<string>)
    requires forall i :: 0 <= i < |words| ==> IsWord(words[i])
    ensures Words(Spaced(words)) == words
  {
    hide Words, IsWord;
    NoWords();
    if |words| == 1 {
      SplitOffWord(words[0], "");
      assert words[0] + "" == words[0];
      assert words == [words[0]];
    } else if |words| > 1 {
      WordsOfSpaced(words[1..]);
      OneWordMore(words[0], Spaced(words[1..]));
      assert words == [words[0]] + words[1..];
      assert Spaced(words) == words[0] + [' '] + Spaced(words[1..]);
    }
  }

  lemma SkipSpace(s: string)
    requires s != "" && IsSpace(s[0])
    ensures Words(s) == Words(s[1..])
  {
    assert StripLeft(s) == StripLeft(s[1..]);
  }

  lemma {:induction false} WordLengthStops(a: string, c: char, b: string)
    requires IsSpace(c)
    ensures WordLength(a + [c] + b) == WordLength(a)
  {
    if a == "" {
      assert a + [c] + b == [c] + b;
    } else if !IsSpace(a[0]) {
      assert (a + [c] + b)[1..] == a[1..] + [c] + b;
      WordLengthStops(a[1..], c, b);
    }
  }

  /** White space separates words, however much of it and wherever: this and what follows say what the
      words of a text are. */
  lemma {:induction false} SpaceSeparates(a: string, c: char, b: string)
    requires IsSpace(c)
    ensures Words(a + [c] + b) == Words(a) + Words(b)
    decreases |a|
  {
    hide Words, WordLength, IsSpace;
    var s := a + [c] + b;
    if a == "" {
      assert s[0] == c && s[1..] == b;
      SkipSpace(s);
      NoWords();
    } else if IsSpace(a[0]) {
      assert s[0] == a[0] && s[1..] == a[1..] + [c] + b;
      SkipSpace(s);
      SkipSpace(a);
      SpaceSeparates(a[1..], c, b);
    } else {
      var n := WordLength(a);
      WordLengthStops(a, c, b);
      WordFirst(a);
      WordFirst(s);
      assert s[..n] == a[..n] && s[n..] == a[n..] + [c] + b;
      SpaceSeparates(a[n..], c, b);
      assert [a[..n]] + (Words(a[n..]) + Words(b)) == [a[..n]] + Words(a[n..]) + Words(b);
    }
  }

  lemma WordFirst(s: string)
    requires s != "" && !IsSpace(s[0])
    ensures 0 < WordLength(s) <= |s| && Words(s) == [s[..WordLength(s)]] + Words(s[WordLength(s)..])
  {
    assert StripLeft(s) == s;
  }

  /** Nothing has no words, and a text without white space is one. */
  lemma WordsOfWord(w: string)
    requires w == "" || IsWord(w)
    ensures Words(w) == if w == "" then [] else [w]
  {
    NoWords();
    if w != "" {
      SplitOffWord(w, "");
      assert w + "" == w;
    }
  }

  // ---- one entry ----

  /** Reads a step, if there is one, and then a star, a range or a number. */
  function ReadItem(text: string): Result<Item, CronError> {
    var (body, slash, stepText) := Partition(text, '/');
    if slash && !(IsNumeral(stepText) && Value(stepText) >= 1) then Err(BadStep)
    else
      var step := if slash then Value(stepText) else 1;
      var (a, dash, b) := Partition(body, '-');
      if body == "*" then Ok(Star(step))
      else if dash then
        if !(IsNumeral(a) && IsNumeral(b)) then Err(BadRange)
        else if Value(a) > Value(b) then Err(Reversed)
        else Ok(Range(Value(a), Value(b), step))
      else if IsNumeral(body) then
        if step != 1 then Err(StepNeedsRange) else Ok(Single(Value(body)))
      else Err(Invalid)
  }

  predicate SpellsNumber(text: string, n: nat) {
    IsNumeral(text) && Value(text) == n
  }

  /** An optional step: nothing for 1, or a slash and a positive number. */
  predicate SpellsStep(text: string, step: nat) {
    if text == "" then step == 1 else text[0] == '/' && step >= 1 && SpellsNumber(text[1..], step)
  }

  ghost predicate SpellsRange(text: string, a: nat, b: nat, x: string, y: string, step: string, s: nat) {
    SpellsNumber(x, a) && SpellsNumber(y, b) && SpellsStep(step, s) && text == x + "-" + y + step
  }

  ghost predicate SpellsWithStep(text: string, body: string, step: string, s: nat) {
    SpellsStep(step, s) && text == body + step
  }

  /** The grammar of entries: which texts spell which item. */
  ghost predicate Spells(text: string, item: Item) {
    match item
    case Star(s) => exists step :: SpellsWithStep(text, "*", step, s)
    case Range(a, b, s) => a <= b && exists x, y, step :: SpellsRange(text, a, b, x, y, step, s)
    case Single(n) => exists x, step :: SpellsNumber(x, n) && SpellsWithStep(text, x, step, 1)
  }

  lemma BodyAndStep(body: string, step: string, s: nat)
    requires '/' !in body && SpellsStep(step, s)
    ensures Partition(body + step, '/') == (body, step != "", if step == "" then "" else step[1..])
  {
    hide Partition;
    if step == "" {
      PartitionFinds(body, '/', "");
      assert body + step == body;
    } else {
      PartitionFinds(body, '/', step[1..]);
      assert step == ['/'] + step[1..];
      assert body + step == body + ['/'] + step[1..];
    }
  }

  lemma NumeralChars(x: string)
    requires IsNumeral(x)
    ensures '/' !in x && '-' !in x && x != "*"
  {
    assert x[0] in x;
  }

  lemma SpelledIsRead(text: string, item: Item)
    requires Spells(text, item)
    ensures ReadItem(text) == Ok(item)
  {
    hide Value, AllDigits;
    match item
    case Star(s) =>
      var step :| SpellsWithStep(text, "*", step, s);
      BodyAndStep("*", step, s);
    case Single(n) =>
      var x, step :| SpellsNumber(x, n) && SpellsWithStep(text, x, step, 1);
      NumeralChars(x);
      BodyAndStep(x, step, 1);
      PartitionFinds(x, '-', "");
    case Range(a, b, s) =>
      var x, y, step :| SpellsRange(text, a, b, x, y, step, s);
      NumeralChars(x);
      NumeralChars(y);
      var body := x + "-" + y;
      assert text == body + step;
      BodyAndStep(body, step, s);
      PartitionFinds(x, '-', y);
      assert body[|x|] == '-';
      assert body != "*";
  }

  lemma ReadIsSpelled(text: string, item: Item)
    requires ReadItem(text) == Ok(item)
    ensures Spells(text, item)
  {
    hide Value, AllDigits;
    var (body, slash, stepText) := Partition(text, '/');
    var step := if slash then "/" + stepText else "";
    assert text == body + step;
    if slash {
      assert step[1..] == stepText;
    }
    var (a, dash, b) := Partition(body, '-');
    match item
    case Star(s) =>
      assert SpellsWithStep(text, "*", step, s);
    case Single(n) =>
      assert SpellsNumber(body, n) && SpellsWithStep(text, body, step, 1);
    case Range(m, n, s) =>
      assert SpellsRange(text, m, n, a, b, step, s);
  }

  /** The reader accepts exactly the grammar, and reads what is spelled. */
  lemma ReadItemIsTheGrammar(text: string, item: Item)
    ensures ReadItem(text) == Ok(item) <==> Spells(text, item)
  {
    if ReadItem(text) == Ok(item) {
      ReadIsSpelled(text, item);
    }
    if Spells(text, item) {
      SpelledIsRead(text, item);
    }
  }

  // ---- one field ----

  function First(item: Item, field: Field): nat {
    match item case Star(_) => Lowest(field) case Range(a, _, _) => a case Single(n) => n
  }

  function Last(item: Item, field: Field): nat {
    match item case Star(_) => Highest(field) case Range(_, b, _) => b case Single(n) => n
  }

  function StepOf(item: Item): nat {
    match item case Star(s) => s case Range(_, _, s) => s case Single(_) => 1
  }

  predicate InRange(item: Item, field: Field) {
    Lowest(field) <= First(item, field) && Last(item, field) <= Highest(field)
  }

  /** What an item says lies within the field. */
  ghost predicate Fits(item: Item, field: Field) {
    match item
    case Star(_) => true
    case Range(a, b, _) => Lowest(field) <= a && b <= Highest(field)
    case Single(n) => Lowest(field) <= n <= Highest(field)
  }

  /** The item covers this value: a whole number of steps from the start, and not beyond the end. */
  ghost predicate Covers(item: Item, field: Field, v: nat) {
    match item
    case Star(step) => exists k: nat :: v == Lowest(field) + k * step && v <= Highest(field)
    case Range(a, b, step) => exists k: nat :: v == a + k * step && v <= b
    case Single(n) => v == n
  }

  /** `range(start, end + 1, step)` */
  function Steps(start: nat, end: nat, step: nat): set<nat>
    requires step >= 1
    decreases end + 1 - start
  {
    if start > end then {} else {start} + Steps(start + step, end, step)
  }

  lemma {:induction false} StepsAre(start: nat, end: nat, step: nat, v: nat)
    requires step >= 1
    ensures v in Steps(start, end, step) <==> v <= end && exists k: nat :: v == start + k * step
    decreases end + 1 - start
  {
    if start <= end {
      StepsAre(start + step, end, step, v);
      if k: nat :| v == start + k * step {
        if k == 0 {
          assert v == start;
        } else {
          assert v == start + step + (k - 1) * step;
        }
      }
      if k: nat :| v == start + step + k * step {
        assert v == start + (k + 1) * step;
      }
      if v == start {
        assert v == start + 0 * step;
      }
    } else if k: nat :| v == start + k * step {
      assert k * step >= 0;
    }
  }

  lemma ReadStep(text: string)
    ensures ReadItem(text).Ok? ==> StepOf(ReadItem(text).value) >= 1
  {
  }

  function ReadEntry(entry: string, field: Field): Result<set<nat>, CronError> {
    match ReadItem(Strip(entry))
    case Err(e) => Err(e)
    case Ok(item) =>
      if !InRange(item, field) then Err(OutOfRange)
      else ReadStep(Strip(entry)); Ok(Steps(First(item, field), Last(item, field), StepOf(item)))
  }

  /** The values of all the entries; the first bad entry decides the error. */
  function EntryValues(entries: seq<string>, field: Field): Result<set<nat>, CronError> {
    if entries == [] then Ok({})
    else
      var before, last := EntryValues(entries[..|entries| - 1], field), ReadEntry(entries[|entries| - 1], field);
      if before.Err? then before
      else if last.Err? then last
      else Ok(before.value + last.value)
  }

  /** Sunday may be written 7. */
  function Folded(values: set<nat>, field: Field): set<nat> {
    if field == WeekdayField then set v | v in values :: if v == 7 then 0 else v else values
  }

  function FieldValues(spec: string, field: Field): Result<set<nat>, CronError> {
    match EntryValues(Split(spec, ','), field)
    case Err(e) => Err(e)
    case Ok(values) => Ok(Folded(values, field))
  }

  ghost predicate EntryCovers(entry: string, field: Field, v: nat) {
    exists item :: Spells(Strip(entry), item) && Fits(item, field) && Covers(item, field, v)
  }

  ghost predicate IsEntry(entry: string, field: Field) {
    exists item :: Spells(Strip(entry), item) && Fits(item, field)
  }

  lemma ItemValues(item: Item, field: Field, v: nat)
    requires StepOf(item) >= 1
    ensures v in Steps(First(item, field), Last(item, field), StepOf(item)) <==> Covers(item, field, v)
  {
    hide Steps;
    StepsAre(First(item, field), Last(item, field), StepOf(item), v);
    if item.Single? {
      assert v == item.value ==> v == item.value + 0 * 1;
    }
  }

  lemma FitsIsInRange(item: Item, field: Field)
    ensures Fits(item, field) <==> InRange(item, field)
  {
  }

  lemma EntryIs(entry: string, field: Field, v: nat)
    ensures ReadEntry(entry, field).Ok? <==> IsEntry(entry, field)
    ensures ReadEntry(entry, field).Ok? ==> (v in ReadEntry(entry, field).value <==> EntryCovers(entry, field, v))
  {
    hide Spells, ReadItem, Steps, Covers, First, Last, StepOf, InRange, Fits, Strip;
    forall item ensures Fits(item, field) <==> InRange(item, field) { FitsIsInRange(item, field); }
    var text := Strip(entry);
    if item :| Spells(text, item) && Fits(item, field) {
      ReadItemIsTheGrammar(text, item);
    }
    if item :| Spells(text, item) && Fits(item, field) && Covers(item, field, v) {
      ReadItemIsTheGrammar(text, item);
    }
    if ReadItem(text).Ok? {
      var item := ReadItem(text).value;
      ReadItemIsTheGrammar(text, item);
      ReadStep(text);
      ItemValues(item, field, v);
    }
  }

  ghost predicate AllEntries(entries: seq<string>, field: Field) {
    forall i :: 0 <= i < |entries| ==> IsEntry(entries[i], field)
  }

  ghost predicate SomeCovers(entries: seq<string>, field: Field, v: nat) {
    exists i :: 0 <= i < |entries| && EntryCovers(entries[i], field, v)
  }

  lemma {:induction false} EntryValuesAre(entries: seq<string>, field: Field, v: nat)
    ensures EntryValues(entries, field).Ok? <==> AllEntries(entries, field)
    ensures EntryValues(entries, field).Ok? ==>
              (v in EntryValues(entries, field).value <==> SomeCovers(entries, field, v))
  {
    hide ReadEntry, IsEntry, EntryCovers;
    if entries != [] {
      var n := |entries| - 1;
      EntryValuesAre(entries[..n], field, v);
      EntryIs(entries[n], field, v);
      assert forall i :: 0 <= i < n ==> entries[..n][i] == entries[i];
    }
  }

  /** The entries of a field are what its commas separate.  It is accepted exactly when each of them
      spells an item in range, and its values are those some entry covers, with 7 read as Sunday in
      the last field. */
  lemma FieldValuesAre(spec: string, field: Field, v: nat)
    ensures Rejoin(Split(spec, ','), ',') == spec
    ensures forall i :: 0 <= i < |Split(spec, ',')| ==> ',' !in Split(spec, ',')[i]
    ensures FieldValues(spec, field).Ok? <==> AllEntries(Split(spec, ','), field)
    ensures FieldValues(spec, field).Ok? ==>
              (v in FieldValues(spec, field).value <==>
               if field == WeekdayField
               then v != 7 && (SomeCovers(Split(spec, ','), field, v)
                            || (v == 0 && SomeCovers(Split(spec, ','), field, 7)))
               else SomeCovers(Split(spec, ','), field, v))
  {
    hide EntryValues, AllEntries, SomeCovers, Split, Rejoin;
    var entries := Split(spec, ',');
    SplitRejoins(spec, ',');
    EntryValuesAre(entries, field, v);
    EntryValuesAre(entries, field, 7);
  }

  /** `_parse_cron_field` */
  method ParseCronField(spec: string, field: Field) returns (r: Result<set<nat>, CronError>)
    ensures r == FieldValues(spec, field)
  {
    hide ReadEntry, Split, EntryValues, Folded;
    var values: set<nat> := {};
    var entries := Split(spec, ',');
    NoEntries(entries, field);
    for i := 0 to |entries|
      invariant EntryValues(entries[..i], field) == Ok(values)
    {
      OneEntryMore(entries, i, field);
      match ReadEntry(entries[i], field) {
        case Err(e) =>
          Spoiled(entries, field, i + 1);
          return Err(e);
        case Ok(more) =>
          values := values + more;
      }
    }
    assert entries[..|entries|] == entries;
    return Ok(Folded(values, field));
  }

  lemma NoEntries(entries: seq<string>, field: Field)
    ensures EntryValues(entries[..0], field) == Ok({})
  {
  }

  lemma OneEntryMore(entries: seq<string>, i: nat, field: Field)
    requires i < |entries| && EntryValues(entries[..i], field).Ok?
    ensures EntryValues(entries[..i + 1], field) ==
            match ReadEntry(entries[i], field)
            case Err(e) => Err(e)
            case Ok(more) => Ok(EntryValues(entries[..i], field).value + more)
  {
    hide ReadEntry;
    assert entries[..i + 1][..i] == entries[..i];
  }

  lemma {:induction false} Spoiled(entries: seq<string>, field: Field, i: nat)
    requires i <= |entries| && EntryValues(entries[..i], field).Err?
    ensures EntryValues(entries, field) == EntryValues(entries[..i], field)
    decreases |entries|
  {
    if i < |entries| {
      assert entries[..|entries| - 1][..i] == entries[..i];
      Spoiled(entries[..|entries| - 1], field, i);
    } else {
      assert entries[..i] == entries;
    }
  }

  // ---- whole expressions ----

  /** `_parse_cron` */
  function ReadCron(expr: string): Result<Cron, CronError> {
    var parts := Words(expr);
    if |parts| != 5 then Err(WrongFieldCount(|parts|))
    else
      var minutes := FieldValues(parts[0], MinuteField);
      if minutes.Err? then Err(minutes.error) else
      var hours := FieldValues(parts[1], HourField);
      if hours.Err? then Err(hours.error) else
      var days := FieldValues(parts[2], DayField);
      if days.Err? then Err(days.error) else
      var months := FieldValues(parts[3], MonthField);
      if months.Err? then Err(months.error) else
      var weekdays := FieldValues(parts[4], WeekdayField);
      if weekdays.Err? then Err(weekdays.error) else
      Ok(Cron(minutes.value, hours.value, days.value, months.value, weekdays.value, parts[2] != "*", parts[4] != "*"))
  }

  /** `validate_cron`: the expression with single spaces between its fields. */
  function ValidateCron(expr: string): Result<string, CronError> {
    if ReadCron(expr).Err? then Err(ReadCron(expr).error) else Ok(Spaced(Words(expr)))
  }

  /** The stored form means what the typed form means, and validating it again changes nothing. */
  lemma StoredFormKeepsMeaning(expr: string)
    requires ValidateCron(expr).Ok?
    ensures ReadCron(ValidateCron(expr).value) == ReadCron(expr)
    ensures ValidateCron(ValidateCron(expr).value) == ValidateCron(expr)
  {
    hide FieldValues, Words, Spaced, IsWord;
    WordsAreWords(expr);
    WordsOfSpaced(Words(expr));
  }

  lemma OneEntry(word: string)
    requires IsWord(word) && ',' !in word
    ensures Split(word, ',') == [word] && Strip(word) == word
  {
    SplitWhole(word, ',');
    assert word[0] in word && word[|word| - 1] in word;
  }

  lemma StarIsEverything(field: Field, v: nat)
    requires Lowest(field) <= v <= Highest(field) && (field == WeekdayField ==> v < 7)
    ensures FieldValues("*", field).Ok? && v in FieldValues("*", field).value
  {
    hide ReadItem;
    hide Split, Strip, FieldValues;
    OneEntry("*");
    assert SpellsWithStep("*", "*", "", 1);
    assert Spells("*", Star(1));
    assert Fits(Star(1), field);
    var k := v - Lowest(field);
    assert v == Lowest(field) + k * 1;
    assert Covers(Star(1), field, v);
    assert EntryCovers(Split("*", ',')[0], field, v) && IsEntry(Split("*", ',')[0], field);
    FieldValuesAre("*", field, v);
  }

  lemma NumberIsItself(word: string, field: Field)
    requires IsNumeral(word) && Lowest(field) <= Value(word) <= Highest(field) && field != WeekdayField
    ensures FieldValues(word, field) == Ok({Value(word)})
  {
    hide Strip, Split, ReadItem, Value, EntryValues;
    OneEntry(word);
    var n := Value(word);
    assert word + "" == word;
    assert SpellsWithStep(word, word, "", 1);
    assert Spells(word, Single(n));
    SpelledIsRead(word, Single(n));
    assert Steps(n, n, 1) == {n};
    assert ReadEntry(word, field) == Ok({n});
    OneEntryValues(word, field);
  }

  lemma OneEntryValues(entry: string, field: Field)
    requires ReadEntry(entry, field).Ok?
    ensures EntryValues([entry], field) == ReadEntry(entry, field)
  {
    hide ReadEntry;
    var values, none: set<nat> := ReadEntry(entry, field).value, {};
    assert none + values == values;
    assert [entry][..0] == [];
  }

  /** Some entry of the field covers this value. */
  ghost predicate FieldHas(spec: string, field: Field, v: nat) {
    SomeCovers(Split(spec, ','), field, v)
  }

  /** Some entry of the last field covers this weekday, Sunday being 0 or 7. */
  ghost predicate WeekdayHas(spec: string, v: nat) {
    FieldHas(spec, WeekdayField, v) || (v == 0 && FieldHas(spec, WeekdayField, 7))
  }

  /** The day rule of an expression: both day fields restricted, either may match; one
      restricted, that one governs; none, every day.  The weekday is counted from a Sunday. */
  lemma EitherDayRule(expr: string, t: Minute)
    requires ReadCron(expr).Ok? && ValidMinute(t)
    ensures var c := ReadCron(expr).value;
            var dom, dow := t.day in c.days, DaysSinceSunday(t) % 7 in c.weekdays;
            DayMatches(c, t) <==>
              if Words(expr)[2] == "*" then (Words(expr)[4] == "*" || dow)
              else if Words(expr)[4] == "*" then dom
              else dom || dow
  {
    hide FieldValues, Words, Weekday, DaysSinceSunday, Number;
    WeekdayIsCounted(t);
    StarIsEverything(DayField, t.day);
    StarIsEverything(WeekdayField, (Weekday(t) + 1) % 7);
  }

  /** What an expression means: it has five fields of entries, for minute, hour, day of month, month and
      weekday, and a minute matches exactly when the entries of the fields cover its parts. */
  lemma ExpressionMeans(expr: string, t: Minute)
    requires ValidMinute(t)
    ensures var f := Words(expr);
            ReadCron(expr).Ok? <==>
              && |f| == 5
              && AllEntries(Split(f[0], ','), MinuteField) && AllEntries(Split(f[1], ','), HourField)
              && AllEntries(Split(f[2], ','), DayField) && AllEntries(Split(f[3], ','), MonthField)
              && AllEntries(Split(f[4], ','), WeekdayField)
    ensures ReadCron(expr).Ok? ==>
              var f := Words(expr);
              var dom, dow := FieldHas(f[2], DayField, t.day), WeekdayHas(f[4], DaysSinceSunday(t) % 7);
              Matches(ReadCron(expr).value, t) <==>
                && FieldHas(f[0], MinuteField, t.minute) && FieldHas(f[1], HourField, t.hour)
                && FieldHas(f[3], MonthField, t.month)
                && if f[2] == "*" then (f[4] == "*" || dow) else if f[4] == "*" then dom else dom || dow
  {
    hide FieldValues, Words, Weekday, DaysSinceSunday, Number, DayMatches, AllEntries, SomeCovers, Split, Rejoin;
    var f := Words(expr);
    if |f| == 5 {
      FieldValuesAre(f[0], MinuteField, t.minute);
      FieldValuesAre(f[1], HourField, t.hour);
      FieldValuesAre(f[2], DayField, t.day);
      FieldValuesAre(f[3], MonthField, t.month);
      FieldValuesAre(f[4], WeekdayField, DaysSinceSunday(t) % 7);
      if ReadCron(expr).Ok? {
        EitherDayRule(expr, t);
      }
    }
  }

  lemma NumberAccepted(word: string, field: Field)
    requires IsNumeral(word)
    ensures FieldValues(word, field).Ok? <==> Lowest(field) <= Value(word) <= Highest(field)
  {
    hide Strip, Split, ReadItem, Value, EntryValues;
    OneEntry(word);
    assert word + "" == word;
    assert SpellsWithStep(word, word, "", 1);
    assert Spells(word, Single(Value(word)));
    SpelledIsRead(word, Single(Value(word)));
    EntryValuesOfOne(word, field);
  }

  lemma EntryValuesOfOne(entry: string, field: Field)
    ensures EntryValues([entry], field).Ok? <==> ReadEntry(entry, field).Ok?
  {
    hide ReadEntry;
    assert [entry][..0] == [];
  }

  /** A minute with this in its minute, hour, day of month or month. */
  function Sample(field: Field, n: nat): Minute {
    match field
    case MinuteField => FIRST.(minute := n)
    case HourField => FIRST.(hour := n)
    case DayField => FIRST.(day := n)
    case MonthField => FIRST.(month := n)
    case WeekdayField => SUNDAY
  }

  /** A lone number is accepted in a field exactly when some minute has it there, and as a weekday up to 7. */
  lemma NumbersAccepted(word: string)
    requires IsNumeral(word)
    ensures FieldValues(word, MinuteField).Ok? <==> exists t :: ValidMinute(t) && t.minute == Value(word)
    ensures FieldValues(word, HourField).Ok? <==> exists t :: ValidMinute(t) && t.hour == Value(word)
    ensures FieldValues(word, DayField).Ok? <==> exists t :: ValidMinute(t) && t.day == Value(word)
    ensures FieldValues(word, MonthField).Ok? <==> exists t :: ValidMinute(t) && t.month == Value(word)
    ensures FieldValues(word, WeekdayField).Ok? <==> Value(word) <= 7
  {
    hide FieldValues, Value;
    forall field ensures FieldValues(word, field).Ok? <==> Lowest(field) <= Value(word) <= Highest(field) {
      NumberAccepted(word, field);
    }
    var n := Value(word);
    assert n < 60 ==> ValidMinute(Sample(MinuteField, n)) && Sample(MinuteField, n).minute == n;
    assert n < 24 ==> ValidMinute(Sample(HourField, n)) && Sample(HourField, n).hour == n;
    assert 1 <= n <= 31 ==> ValidMinute(Sample(DayField, n)) && Sample(DayField, n).day == n;
    assert 1 <= n <= 12 ==> ValidMinute(Sample(MonthField, n)) && Sample(MonthField, n).month == n;
  }
}
