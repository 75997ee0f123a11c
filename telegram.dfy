/** The Telegram bot's webhook: the chat allow-list, command parsing, the
    per-employee status flags and what each command selects. Sending the
    reply and querying the database are outside the model: the query's
    answer is a parameter and the reply is a value that says what would be
    sent. */
module TelegramBot {
  import opened Wrappers
  import opened Dates
  import opened Roster
  import opened Text
  import opened Sorting
  import opened Lists
  import Analytics

  // ---------------------------------------------------------------- numbers

  predicate IsDigit(c: char) {
    '0' <= c <= '9'
  }

  predicate AllDigits(s: string) {
    forall i :: 0 <= i < |s| ==> IsDigit(s[i])
  }

  /** The decimal value of a string of digits. */
  function DigitsValue(s: string): (n: nat)
    requires AllDigits(s)
  {
    if s == [] then 0 else DigitsValue(s[..|s| - 1]) * 10 + (s[|s| - 1] as int - '0' as int)
  }

  /** Number of leading digits. */
  function DigitsPrefix(s: string): (k: nat)
    ensures k <= |s| && AllDigits(s[..k])
    ensures k < |s| ==> !IsDigit(s[k])
  {
    if s == [] || !IsDigit(s[0]) then 0 else 1 + DigitsPrefix(s[1..])
  }

  lemma {:induction false} DigitsPrefixAll(s: string)
    requires AllDigits(s)
    ensures DigitsPrefix(s) == |s|
  {
    if s != [] {
      DigitsPrefixAll(s[1..]);
    }
  }

  /** A JavaScript number as the bot compares it: an integer or `NaN`. */
  datatype Num = Int(value: int) | NaN

  /** A numeral without its optional sign. */
  function Unsigned(t: string): (r: string)
    ensures |r| <= |t|
  {
    if t != [] && (t[0] == '-' || t[0] == '+') then t[1..] else t
  }

  predicate Negative(t: string) {
    t != [] && t[0] == '-'
  }

  /** `Number(s)` for an already trimmed, non-empty `s`: an optionally signed
      run of decimal digits is that integer; anything else is `NaN`. */
  function ToNumber(s: string): (n: Num)
    ensures AllDigits(s) && s != [] ==> n == Int(DigitsValue(s))
    ensures AllDigits(Unsigned(s)) && Unsigned(s) != [] ==>
              n == Int(if Negative(s) then -(DigitsValue(Unsigned(s)) as int) else DigitsValue(Unsigned(s)))
    ensures !(AllDigits(Unsigned(s)) && Unsigned(s) != []) ==> n == NaN
  {
    var body := Unsigned(s);
    if body == [] || !AllDigits(body) then NaN
    else var v: int := DigitsValue(body); Int(if Negative(s) then -v else v)
  }

  /** `parseInt(s, 10)`: leading white space is skipped, then an optional sign
      and as many digits as there are; no digit at all gives `NaN`. */
  function ParseIntPrefix(s: string): (n: Num)
    ensures AllDigits(s) && s != [] ==> n == Int(DigitsValue(s))
  {
    var body := Unsigned(TrimStart(s));
    var k := DigitsPrefix(body);
    if AllDigits(s) && s != [] then
      assert TrimStart(s) == s;
      DigitsPrefixAll(s);
      assert s[..|s|] == s;
      Int(DigitsValue(s))
    else if k == 0 then NaN
    else var v: int := DigitsValue(body[..k]); Int(if Negative(TrimStart(s)) then -v else v)
  }

  // ---------------------------------------------------------------- allow-list

  /** The entries of `TELEGRAM_ALLOWED_CHAT_IDS`: split on ",", trimmed, empty
      entries dropped. */
  function AllowEntries(parts: seq<string>): (r: seq<string>)
    ensures forall e :: e in r ==> e != []
    ensures forall p :: p in parts && Trim(p) != [] ==> Trim(p) in r
  {
    if parts == [] then []
    else
      var rest := AllowEntries(parts[1..]);
      if Trim(parts[0]) == [] then rest else [Trim(parts[0])] + rest
  }

  /** `ALLOWED_CHAT_IDS`: the set of the entries as numbers. An entry that is
      not a number is kept, as `NaN`. */
  function AllowList(raw: string): set<Num> {
    set e | e in AllowEntries(Split(raw, ',')) :: ToNumber(e)
  }

  /** The access rule: an empty list lets every chat in, otherwise the chat id
      must be listed. */
  predicate Allowed(ids: set<Num>, chatId: int) {
    |ids| == 0 || Int(chatId) in ids
  }

  lemma {:induction false} AllowEntriesBlank(parts: seq<string>)
    requires forall p :: p in parts ==> Trim(p) == []
    ensures AllowEntries(parts) == []
  {
    if parts != [] {
      assert parts[0] in parts;
      AllowEntriesBlank(parts[1..]);
    }
  }

  /** An unset variable, or one holding only commas and blanks, lets every
      chat in. */
  lemma BlankAllowListAllowsAll(raw: string, chatId: int)
    requires forall p :: p in Split(raw, ',') ==> Trim(p) == []
    ensures AllowList(raw) == {} && Allowed(AllowList(raw), chatId)
  {
    AllowEntriesBlank(Split(raw, ','));
  }

  /** A listed decimal chat id is let in, whatever else the list holds. */
  lemma ListedChatAllowed(raw: string, entry: string)
    requires entry in Split(raw, ',') && Trim(entry) != []
    requires AllDigits(Trim(entry))
    ensures Allowed(AllowList(raw), DigitsValue(Trim(entry)))
  {
    assert Trim(entry) in AllowEntries(Split(raw, ','));
  }

  /** Every listed entry is in the set, as the number it reads as. */
  lemma ListedEntryIn(raw: string, entry: string)
    requires entry in Split(raw, ',') && Trim(entry) != []
    ensures ToNumber(Trim(entry)) in AllowList(raw)
  {
    assert Trim(entry) in AllowEntries(Split(raw, ','));
  }

  /** A listed group chat id, written with a minus sign ("-100…"), lets
      that chat in. */
  lemma ListedGroupChatAllowed(raw: string, entry: string, v: nat)
    requires entry in Split(raw, ',') && Negative(Trim(entry))
    requires AllDigits(Unsigned(Trim(entry))) && Unsigned(Trim(entry)) != []
    requires v == DigitsValue(Unsigned(Trim(entry)))
    ensures Allowed(AllowList(raw), -(v as int))
  {
    NegativeNumeral(Trim(entry), v);
    ListedEntryIn(raw, entry);
  }

  lemma NegativeNumeral(e: string, v: nat)
    requires Negative(e) && AllDigits(Unsigned(e)) && Unsigned(e) != []
    requires v == DigitsValue(Unsigned(e))
    ensures ToNumber(e) == Int(-(v as int))
  {
  }


  lemma SingleEntry(x: string)
    requires x != [] && !IsSpace(x[0]) && !IsSpace(x[|x| - 1]) && ',' !in x
    ensures AllowEntries(Split(x, ',')) == [x]
  {
    SplitNoSeparator(x, ',');
    TrimOfTrimmed(x);
    var none: seq<string> := [];
    assert [x][1..] == none;
  }

  /** A list whose only entry is not a number (a name, say) is not empty,
      so it shuts out every chat. */
  lemma MistypedAllowListDeniesAll(x: string, chatId: int)
    requires x != [] && !IsSpace(x[0]) && !IsSpace(x[|x| - 1]) && ',' !in x
    requires !IsDigit(x[0]) && x[0] != '-' && x[0] != '+'
    ensures AllowList(x) == {NaN}
    ensures !Allowed(AllowList(x), chatId)
  {
    SingleEntry(x);
    assert Unsigned(x) == x && !AllDigits(x);
    assert ToNumber(x) == NaN;
    assert NaN in AllowList(x);
    forall n | n in AllowList(x) ensures n == NaN {
      var e :| e in AllowEntries(Split(x, ',')) && ToNumber(e) == n;
    }
  }

  // ---------------------------------------------------------------- dates

  /** `isToday(iso)` at `now`: `None` stands for a missing, empty or unparsable
      timestamp, which is never today. */
  predicate IsToday(t: Option<int>, now: int) {
    t.Some? && t.value / MsPerDay == now / MsPerDay
  }

  /** Same calendar day means same starting midnight. */
  lemma IsTodayIffSameMidnight(t: int, now: int)
    ensures IsToday(Some(t), now) <==> StartOfDay(t) == StartOfDay(now)
  {
  }

  /** `daysSince(dateIso)` at `now`: whole days elapsed, rounded down. */
  function DaysSince(d: CivilDate, now: int): (n: int)
    ensures n * MsPerDay <= now - TimeValue(d) < n * MsPerDay + MsPerDay
  {
    FloorDiv(now - TimeValue(d), MsPerDay)
  }

  /** The bot and the web application count the days of a training alike. */
  lemma DaysSinceMatchesApp(d: CivilDate, now: int)
    ensures DaysSince(d, now) == DaysDifference(now, Some(d))
  {
    var a, b := DaysSince(d, now), DaysDifference(now, Some(d));
    assert (a - b) * MsPerDay < MsPerDay && (b - a) * MsPerDay < MsPerDay;
  }

  // ---------------------------------------------------------------- text

  /** `normalize(s)`: `(s || "").trim().toLowerCase()`. */
  function Normalize(s: Option<string>): (r: string)
    ensures r == [] || (!IsSpace(r[0]) && !IsSpace(r[|r| - 1]))
  {
    var t := Trim(s.GetOr([]));
    ToLowerTrim(t);
    TrimIdempotent(s.GetOr([]));
    ToLower(t)
  }

  /** Normalising twice is normalising once. */
  lemma NormalizeIdempotent(s: Option<string>)
    ensures Normalize(Some(Normalize(s))) == Normalize(s)
  {
    var t := Trim(s.GetOr([]));
    ToLowerTrim(t);
    TrimIdempotent(s.GetOr([]));
    ToLowerIdempotent(t);
  }

  // ---------------------------------------------------------------- commands

  /** A message entity: its type, and its offset and length when they are numbers. */
  datatype Entity = Entity(kind: string, offset: Option<int>, length: Option<int>)

  datatype Command = Command(cmd: string, arg: string, text: string)

  /** `entities.find(e => e.type === "bot_command" && e.offset === 0)`. */
  function FindCommandEntity(entities: seq<Entity>): (o: Option<Entity>)
    ensures o.Some? ==> o.value in entities && o.value.kind == "bot_command" && o.value.offset == Some(0)
    ensures o.None? ==> forall e :: e in entities ==> !(e.kind == "bot_command" && e.offset == Some(0))
  {
    if entities == [] then None
    else if entities[0].kind == "bot_command" && entities[0].offset == Some(0) then Some(entities[0])
    else FindCommandEntity(entities[1..])
  }

  /** `cmdRaw`: the first `length` characters when a command entity starts
      the text and gives a length, otherwise the first word. */
  function RawCommand(t: string, entities: seq<Entity>): (raw: string)
    ensures |raw| <= |t|
  {
    var ent := FindCommandEntity(entities);
    if ent.Some? && ent.value.length.Some? then SliceTo(t, ent.value.length.value)
    else t[..IndexOfSpace(t)]
  }

  /** `cmdRaw.split("@")[0].trim()`: the command without `@BotName`. */
  function StripBot(raw: string): (cmd: string)
    ensures '@' !in cmd
  {
    var head := Split(raw, '@')[0];
    assert '@' !in head;
    assert forall i :: 0 <= i < |Trim(head)| ==> Trim(head)[i] in head;
    Trim(head)
  }

  /** The command and argument of the trimmed text `t`: the raw command
      without `@BotName`, and the trimmed rest after the raw command. */
  function ParseTrimmed(t: string, entities: seq<Entity>): (c: Command)
    ensures '@' !in c.cmd && c.text == t
  {
    var raw := RawCommand(t, entities);
    Command(StripBot(raw), Trim(t[|raw|..]), t)
  }

  /** `getCommand(msg)`: the text trimmed, then parsed. */
  function GetCommand(text: Option<string>, entities: seq<Entity>): (c: Command)
    ensures '@' !in c.cmd
  {
    ParseTrimmed(Trim(text.GetOr([])), entities)
  }

  /** With a command entity at offset 0 that gives a length `n`, the raw
      command is the first `n` characters of the trimmed text `t` (all of
      them when `n` is larger) and the argument is the trimmed rest. */
  lemma GetCommandByEntity(text: Option<string>, t: string, entities: seq<Entity>, n: int)
    requires t == Trim(text.GetOr([]))
    requires FindCommandEntity(entities).Some? && FindCommandEntity(entities).value.length == Some(n)
    ensures 0 <= n <= |t| ==> GetCommand(text, entities) == Command(StripBot(t[..n]), Trim(t[n..]), t)
    ensures n > |t| ==> GetCommand(text, entities) == Command(StripBot(t), [], t)
  {
    assert GetCommand(text, entities) == ParseTrimmed(t, entities);
    ParseByEntity(t, entities, n);
  }

  lemma ParseByEntity(t: string, entities: seq<Entity>, n: int)
    requires FindCommandEntity(entities).Some? && FindCommandEntity(entities).value.length == Some(n)
    ensures 0 <= n <= |t| ==> ParseTrimmed(t, entities) == Command(StripBot(t[..n]), Trim(t[n..]), t)
    ensures n > |t| ==> ParseTrimmed(t, entities) == Command(StripBot(t), [], t)
  {
    var raw := RawCommand(t, entities);
    assert raw == SliceTo(t, n);
    if n > |t| {
      assert t[|raw|..] == [];
    }
  }

  /** Without such an entity the raw command is the first word of the
      trimmed text `t`, which ends at its first white space `w`, and the
      argument is the trimmed rest. */
  lemma GetCommandByWord(text: Option<string>, t: string, w: nat, entities: seq<Entity>)
    requires t == Trim(text.GetOr([])) && w == IndexOfSpace(t)
    requires !(FindCommandEntity(entities).Some? && FindCommandEntity(entities).value.length.Some?)
    ensures w <= |t| && GetCommand(text, entities) == Command(StripBot(t[..w]), Trim(t[w..]), t)
  {
    assert GetCommand(text, entities) == ParseTrimmed(t, entities);
    ParseByWord(t, w, entities);
  }

  lemma ParseByWord(t: string, w: nat, entities: seq<Entity>)
    requires w == IndexOfSpace(t)
    requires !(FindCommandEntity(entities).Some? && FindCommandEntity(entities).value.length.Some?)
    ensures w <= |t| && ParseTrimmed(t, entities) == Command(StripBot(t[..w]), Trim(t[w..]), t)
  {
    assert RawCommand(t, entities) == t[..w];
  }

  lemma SplitNoSeparator(s: string, c: char)
    requires c !in s
    ensures Split(s, c) == [s]
  {
  }

  lemma SplitAtSeparator(a: string, c: char, b: string)
    requires c !in a
    ensures Split(a + [c] + b, c)[0] == a
  {
    var s := a + [c] + b;
    assert s[|a|] == c;
    assert forall j :: 0 <= j < |a| ==> s[j] != c by {
      forall j | 0 <= j < |a| ensures s[j] != c { assert s[j] == a[j]; }
    }
    assert IndexOf(s, c) == |a|;
    SplitHead(s, c);
    assert s[..|a|] == a;
  }

  predicate NoSpace(w: string) {
    forall i :: 0 <= i < |w| ==> !IsSpace(w[i])
  }

  predicate Trimmed(s: string) {
    s == [] || (!IsSpace(s[0]) && !IsSpace(s[|s| - 1]))
  }

  lemma WordThenArgTrimmed(word: string, arg: string)
    requires word != [] && NoSpace(word) && arg != [] && Trimmed(arg)
    ensures Trim(word + " " + arg) == word + " " + arg
  {
    var t := word + " " + arg;
    assert t[0] == word[0] && t[|t| - 1] == arg[|arg| - 1];
    TrimOfTrimmed(t);
  }

  lemma WordThenArgSpace(word: string, arg: string)
    requires NoSpace(word)
    ensures IndexOfSpace(word + " " + arg) == |word|
  {
    var t := word + " " + arg;
    forall j | 0 <= j < |word| ensures !IsSpace(t[j]) { assert t[j] == word[j]; }
    assert t[|word|] == ' ';
  }

  lemma SpaceThenArg(arg: string)
    requires Trimmed(arg)
    ensures Trim(" " + arg) == arg
  {
    var rest := " " + arg;
    assert rest[1..] == arg;
    assert TrimStart(rest) == TrimStart(arg);
    TrimOfTrimmed(arg);
  }

  /** The command word, with or without its `@BotName` suffix. */
  function CommandWord(cmd: string, bot: Option<string>): string {
    if bot.Some? then cmd + "@" + bot.value else cmd
  }

  lemma CommandWordParts(cmd: string, bot: Option<string>)
    requires cmd != [] && '@' !in cmd && NoSpace(cmd)
    requires bot.Some? ==> NoSpace(bot.value)
    ensures var w := CommandWord(cmd, bot);
      w != [] && NoSpace(w) && StripBot(w) == cmd
  {
    var w := CommandWord(cmd, bot);
    if bot.Some? {
      SplitAtSeparator(cmd, '@', bot.value);
      forall i | 0 <= i < |w| ensures !IsSpace(w[i]) {
        if i < |cmd| { assert w[i] == cmd[i]; }
        else if i > |cmd| { assert w[i] == bot.value[i - |cmd| - 1]; }
      }
    } else {
      SplitNoSeparator(cmd, '@');
    }
    TrimOfTrimmed(cmd);
  }

  /** Parsing inverts writing: the text "/cmd@Bot arg" (the `@Bot` part
      optional) parses back into the command "/cmd" and the argument "arg". */
  lemma GetCommandRoundTrip(cmd: string, bot: Option<string>, arg: string)
    requires cmd != [] && '@' !in cmd && NoSpace(cmd)
    requires bot.Some? ==> NoSpace(bot.value)
    requires arg != [] && Trimmed(arg)
    ensures GetCommand(Some(CommandWord(cmd, bot) + " " + arg), []).cmd == cmd
    ensures GetCommand(Some(CommandWord(cmd, bot) + " " + arg), []).arg == arg
  {
    var w := CommandWord(cmd, bot);
    CommandWordParts(cmd, bot);
    CommandLine(w, arg);
    GetCommandOfWord(w + " " + arg, w);
    RestAfterWord(w, arg);
  }

  /** `t` starts with the word `w`, followed by a space or nothing. */
  predicate WordStart(t: string, w: string) {
    IndexOfSpace(t) == |w| && |w| <= |t| && t[..|w|] == w
  }

  /** `t` is a trimmed text whose first word is `w`. */
  predicate WordLine(t: string, w: string) {
    Trim(t) == t && WordStart(t, w)
  }

  lemma CommandStart(w: string, arg: string)
    requires NoSpace(w)
    ensures WordStart(w + " " + arg, w)
  {
    WordThenArgSpace(w, arg);
    assert (w + " " + arg)[..|w|] == w;
  }

  lemma CommandLine(w: string, arg: string)
    requires w != [] && NoSpace(w) && arg != [] && Trimmed(arg)
    ensures WordLine(w + " " + arg, w)
  {
    WordThenArgTrimmed(w, arg);
    CommandStart(w, arg);
  }

  lemma GetCommandOfWord(t: string, w: string)
    requires WordLine(t, w)
    ensures GetCommand(Some(t), []).cmd == StripBot(w)
    ensures GetCommand(Some(t), []).arg == Trim(t[|w|..])
  {
    assert Some(t).GetOr([]) == t;
    assert RawCommand(t, []) == w;
  }

  lemma RestAfterWord(w: string, arg: string)
    requires Trimmed(arg)
    ensures Trim((w + " " + arg)[|w|..]) == arg
  {
    assert (w + " " + arg)[|w|..] == " " + arg;
    SpaceThenArg(arg);
  }

  // ---------------------------------------------------------------- rows

  /** An employee as the bot loads it. */
  datatype BotEmployee = BotEmployee(
    name: Option<string>, organization: Option<string>,
    trainingDate: Option<CivilDate>, createdAt: Option<int>)

  datatype BotRow = BotRow(
    name: string, organization: string, createdAt: Option<int>,
    days: int, expired: bool, warning: bool, valid: bool, overdueDays: int)

  /** The row of one employee with a training date. */
  function BotRowOf(e: BotEmployee, d: CivilDate, now: int): (r: BotRow)
    ensures r.days == DaysSince(d, now)
    ensures r.expired <==> StatusByDays(r.days) == Expired
    ensures r.warning <==> StatusByDays(r.days) == Warning
    ensures r.valid <==> StatusByDays(r.days) == Valid
    ensures r.overdueDays >= 0 && (r.overdueDays > 0 ==> r.expired)
    ensures r.expired ==> r.overdueDays == r.days - DaysThreshold
    ensures r.name == e.name.GetOr("—") && r.organization == e.organization.GetOr("—")
  {
    var days := DaysSince(d, now);
    var expired := days >= DaysThreshold;
    var warning := days >= WarningThreshold && days < DaysThreshold;
    var valid := !expired && !warning;
    BotRow(e.name.GetOr("—"), e.organization.GetOr("—"), e.createdAt, days, expired, warning, valid,
           if expired then (if days - DaysThreshold > 0 then days - DaysThreshold else 0) else 0)
  }

  /** Exactly one of the three flags is set. */
  predicate OneFlag(r: BotRow) {
    (if r.expired then 1 else 0) + (if r.warning then 1 else 0) + (if r.valid then 1 else 0) == 1
  }

  predicate BotHasDate(e: BotEmployee) {
    e.trainingDate.Some?
  }

  /** `employees.filter(e => e?.training_date)`: each employee with a
      training date as often as it was loaded, the others not at all. */
  function BotDated(es: seq<BotEmployee>): (r: seq<BotEmployee>)
    ensures forall e :: multiset(r)[e] == if e.trainingDate.Some? then multiset(es)[e] else 0
    ensures forall i :: 0 <= i < |r| ==> r[i].trainingDate.Some?
  {
    var r := Filter(es, BotHasDate);
    assert forall i :: 0 <= i < |r| ==> r[i] in r;
    r
  }

  /** The rows of the bot: row `i` is the row of the `i`-th employee with a
      training date. */
  function BotRows(es: seq<BotEmployee>, now: int): (rows: seq<BotRow>)
    ensures |rows| == |BotDated(es)| <= |es|
    ensures forall i :: 0 <= i < |rows| ==>
      rows[i] == BotRowOf(BotDated(es)[i], BotDated(es)[i].trainingDate.value, now)
    ensures forall r :: r in rows ==> OneFlag(r) && r.overdueDays >= 0
    ensures forall r :: r in rows ==> r.expired ==> r.overdueDays == r.days - DaysThreshold
    ensures forall r :: r in rows ==> r.overdueDays > 0 ==> r.expired
  {
    var d := BotDated(es);
    var rows := seq(|d|, i requires 0 <= i < |d| => BotRowOf(d[i], d[i].trainingDate.value, now));
    assert forall r :: r in rows ==> exists i :: 0 <= i < |d| && r == BotRowOf(d[i], d[i].trainingDate.value, now);
    rows
  }

  /** Only employees without a training date are left out. */
  lemma {:induction false} BotRowsCount(es: seq<BotEmployee>, now: int)
    ensures |BotRows(es, now)| == |es| - NoDateCount(es)
  {
    DatedCount(es);
  }

  lemma {:induction false} DatedCount(es: seq<BotEmployee>)
    ensures |Filter(es, BotHasDate)| == |es| - NoDateCount(es)
  {
    if es != [] {
      DatedCount(es[1..]);
    }
  }

  function NoDateCount(es: seq<BotEmployee>): nat {
    if es == [] then 0 else (if es[0].trainingDate.None? then 1 else 0) + NoDateCount(es[1..])
  }

  function CountExpired(rows: seq<BotRow>): nat {
    if rows == [] then 0 else (if rows[0].expired then 1 else 0) + CountExpired(rows[1..])
  }

  function CountWarning(rows: seq<BotRow>): nat {
    if rows == [] then 0 else (if rows[0].warning then 1 else 0) + CountWarning(rows[1..])
  }

  function CountValid(rows: seq<BotRow>): nat {
    if rows == [] then 0 else (if rows[0].valid then 1 else 0) + CountValid(rows[1..])
  }

  /** Each row lands in exactly one count. */
  lemma {:induction false} BotCountsPartition(rows: seq<BotRow>)
    requires forall r :: r in rows ==> OneFlag(r)
    ensures CountExpired(rows) + CountWarning(rows) + CountValid(rows) == |rows|
  {
    if rows != [] {
      assert OneFlag(rows[0]);
      BotCountsPartition(rows[1..]);
    }
  }

  /** `rows.filter(r => r.expired)`: each expired row as often as in
      `rows`, in their order, and as many as `CountExpired` counts. */
  function ExpiredOnly(rows: seq<BotRow>): (r: seq<BotRow>)
    ensures |r| == CountExpired(rows)
    ensures forall x :: multiset(r)[x] == if x.expired then multiset(rows)[x] else 0
    ensures forall x :: x in r <==> x in rows && x.expired
  {
    if rows == [] then []
    else
      var rest := ExpiredOnly(rows[1..]);
      assert rows == [rows[0]] + rows[1..];
      if rows[0].expired then [rows[0]] + rest else rest
  }

  function Overdue(r: BotRow): int {
    r.overdueDays
  }

  lemma {:induction false} SumOverdueNonNegative(rows: seq<BotRow>)
    requires forall r :: r in rows ==> r.overdueDays >= 0
    ensures SumBy(rows, Overdue) >= 0
  {
    if rows != [] {
      SumOverdueNonNegative(rows[..|rows| - 1]);
      assert rows[|rows| - 1] in rows;
    }
  }

  // ---------------------------------------------------------------- /stats

  datatype BotStats = BotStats(
    total: nat, valid: nat, warning: nat, expired: nat,
    conformityRate: real, avgOverdue: real)

  /** The mean overdue of the expired rows; 0 when there are none. */
  function MeanOverdue(list: seq<BotRow>): (m: real)
    requires forall r :: r in list ==> r.overdueDays >= 0
    ensures m >= 0.0 && (|list| == 0 ==> m == 0.0)
    ensures m * (|list| as real) == SumBy(list, Overdue) as real
  {
    SumOverdueNonNegative(list);
    if |list| == 0 then 0.0 else SumBy(list, Overdue) as real / |list| as real
  }

  /** The figures of `/stats`. */
  function Stats(rows: seq<BotRow>): (s: BotStats)
    requires forall r :: r in rows ==> OneFlag(r) && r.overdueDays >= 0
    ensures s.total == |rows| == s.valid + s.warning + s.expired
    ensures s.expired == CountExpired(rows) && s.warning == CountWarning(rows) && s.valid == CountValid(rows)
    ensures s.conformityRate == Analytics.Percent(s.valid, s.total)
    ensures s.avgOverdue == MeanOverdue(ExpiredOnly(rows)) && |ExpiredOnly(rows)| == s.expired
  {
    BotCountsPartition(rows);
    BotStats(|rows|, CountValid(rows), CountWarning(rows), CountExpired(rows),
             Analytics.Percent(CountValid(rows), |rows|), MeanOverdue(ExpiredOnly(rows)))
  }

  // ---------------------------------------------------------------- /new

  /** The `• name — organization` line of an employee. */
  function NewLine(e: BotEmployee): string {
    "• " + e.name.GetOr("—") + " — " + e.organization.GetOr("—")
  }

  /** `employees.filter(e => e?.created_at && isToday(e.created_at))`: each
      employee created today as often as it was loaded, in order. */
  function AddedToday(es: seq<BotEmployee>, now: int): (r: seq<BotEmployee>)
    ensures forall e :: multiset(r)[e] == if IsToday(e.createdAt, now) then multiset(es)[e] else 0
    ensures forall i :: 0 <= i < |r| ==> IsToday(r[i].createdAt, now)
  {
    var r := Filter(es, (e: BotEmployee) => IsToday(e.createdAt, now));
    assert forall i :: 0 <= i < |r| ==> r[i] in r;
    r
  }

  /** The lines of `/new`: line `i` names the `i`-th employee created today
      (training date or not), and every line is of such an employee. */
  function CreatedToday(es: seq<BotEmployee>, now: int): (r: seq<string>)
    ensures |r| == |AddedToday(es, now)| <= |es|
    ensures forall i :: 0 <= i < |r| ==> r[i] == NewLine(AddedToday(es, now)[i])
    ensures forall l :: l in r <==> exists e :: e in es && IsToday(e.createdAt, now) && l == NewLine(e)
  {
    var added := AddedToday(es, now);
    assert |added| <= |es| by {
      assert |added| == |multiset(added)| && |es| == |multiset(es)|;
      assert multiset(added) <= multiset(es);
    }
    var r := seq(|added|, i requires 0 <= i < |added| => NewLine(added[i]));
    forall l ensures l in r <==> exists e :: e in es && IsToday(e.createdAt, now) && l == NewLine(e) {
      if l in r {
        var i :| 0 <= i < |r| && r[i] == l;
        assert added[i] in multiset(added);
      }
      if exists e :: e in es && IsToday(e.createdAt, now) && l == NewLine(e) {
        var e :| e in es && IsToday(e.createdAt, now) && l == NewLine(e);
        assert e in multiset(added);
        var i :| 0 <= i < |added| && added[i] == e;
        assert r[i] == l;
      }
    }
    r
  }

  /** The lines `/new` shows: at most 40 of them, from the start. */
  function NewShown(es: seq<BotEmployee>, now: int): (shown: seq<string>)
    ensures |shown| <= 40
    ensures shown <= CreatedToday(es, now)
    ensures |CreatedToday(es, now)| <= 40 ==> shown == CreatedToday(es, now)
  {
    var today := CreatedToday(es, now);
    if |today| <= 40 then today else today[..40]
  }

  // ---------------------------------------------------------------- /expired

  function Min(a: int, b: int): int { if a <= b then a else b }
  function Max(a: int, b: int): int { if a >= b then a else b }

  /** `Math.min(Math.max(parseInt(arg || "10", 10) || 10, 1), 50)`. */
  function ExpiredLimit(arg: string): (limit: int)
    ensures 1 <= limit <= 50
  {
    var n := ParseIntPrefix(if arg == [] then "10" else arg);
    var v := if n.NaN? || n.value == 0 then 10 else n.value;
    Min(Max(v, 1), 50)
  }

  /** No argument, an argument that does not start with a number, and "0"
      all give the default 10; a number from 1 to 50 is taken as it is,
      larger ones are cut to 50. */
  lemma ExpiredLimitCases(arg: string)
    ensures arg == [] ==> ExpiredLimit(arg) == 10
    ensures arg == "0" ==> ExpiredLimit(arg) == 10
    ensures arg != [] && ParseIntPrefix(arg).NaN? ==> ExpiredLimit(arg) == 10
    ensures AllDigits(arg) && arg != [] && 1 <= DigitsValue(arg) <= 50 ==> ExpiredLimit(arg) == DigitsValue(arg)
    ensures AllDigits(arg) && arg != [] && DigitsValue(arg) > 50 ==> ExpiredLimit(arg) == 50
  {
    assert AllDigits("10") && DigitsValue("10") == 10 by {
      assert "10"[..1] == "1";
    }
    if arg == "0" {
      assert AllDigits(arg) && DigitsValue(arg) == 0;
    }
  }

  /** The comparator `(a, b) => b.days - a.days`: more days first. */
  function ByDaysDesc(a: BotRow, b: BotRow): bool {
    a.days >= b.days
  }

  /** The first `k` rows of a list sorted by days, most first: they keep that
      order, come from the list, and no row left behind has more days than
      a row taken. */
  lemma {:induction false} TakeOfSorted(sorted: seq<BotRow>, k: nat)
    requires k <= |sorted| && SortedBy(sorted, ByDaysDesc)
    ensures forall i, j :: 0 <= i < j < k ==> sorted[..k][i].days >= sorted[..k][j].days
    ensures multiset(sorted[..k]) <= multiset(sorted)
    ensures forall x :: x in sorted && x !in sorted[..k] ==> forall y :: y in sorted[..k] ==> y.days >= x.days
  {
    assert sorted == sorted[..k] + sorted[k..];
    forall x | x in sorted && x !in sorted[..k] ensures forall y :: y in sorted[..k] ==> y.days >= x.days {
      var j :| 0 <= j < |sorted| && sorted[j] == x;
      forall y | y in sorted[..k] ensures y.days >= x.days {
        var i :| 0 <= i < k && sorted[..k][i] == y;
        assert ByDaysDesc(sorted[i], sorted[j]);
      }
    }
  }

  /** The `/expired` list: expired rows, most days first, the first `limit`. */
  method ExpiredTop(rows: seq<BotRow>, limit: int) returns (list: seq<BotRow>)
    requires 1 <= limit
    ensures |list| == Min(limit, CountExpired(rows))
    ensures forall i, j :: 0 <= i < j < |list| ==> list[i].days >= list[j].days
    ensures multiset(list) <= multiset(ExpiredOnly(rows))
    ensures forall r :: r in list ==> r in rows && r.expired
    ensures forall x :: x in ExpiredOnly(rows) && x !in list ==> forall y :: y in list ==> y.days >= x.days
  {
    var expired := ExpiredOnly(rows);
    var a := new BotRow[|expired|](i requires 0 <= i < |expired| => expired[i]);
    assert a[..] == expired;
    assert TotalPreorder(ByDaysDesc);
    SortInPlace(a, ByDaysDesc);
    var sorted := a[..];
    var k := Min(limit, |sorted|);
    TakeOfSorted(sorted, k);
    list := sorted[..k];
    forall r | r in list ensures r in expired {
      assert r in multiset(list);
    }
    forall x | x in expired ensures x in sorted {
      assert x in multiset(sorted);
    }
  }

  // ---------------------------------------------------------------- /org

  /** `normalize(r.organization).includes(q)`. */
  predicate OrgMatches(x: BotRow, q: string) {
    Contains(Normalize(Some(x.organization)), q)
  }

  /** The rows whose normalised organisation contains the query, each as
      often as in `rows`, in their order. */
  function OrgRows(rows: seq<BotRow>, q: string): (r: seq<BotRow>)
    ensures |r| <= |rows|
    ensures forall x :: multiset(r)[x] == if OrgMatches(x, q) then multiset(rows)[x] else 0
    ensures forall x :: x in r <==> x in rows && OrgMatches(x, q)
  {
    Filter(rows, (x: BotRow) => OrgMatches(x, q))
  }

  datatype OrgStats = OrgStats(total: nat, valid: nat, warning: nat, expired: nat, conformityRate: real)

  /** The figures of `/org <arg>` for a non-empty normalised query. */
  function OrgSummary(rows: seq<BotRow>, q: string): (s: OrgStats)
    requires forall r :: r in rows ==> OneFlag(r)
    ensures s.total == |OrgRows(rows, q)| == s.valid + s.warning + s.expired
    ensures s.valid == CountValid(OrgRows(rows, q)) && s.warning == CountWarning(OrgRows(rows, q))
    ensures s.expired == CountExpired(OrgRows(rows, q))
    ensures s.conformityRate == Analytics.Percent(s.valid, s.total)
    ensures 0.0 <= s.conformityRate <= 100.0 && (s.total == 0 ==> s.conformityRate == 0.0)
  {
    var sel := OrgRows(rows, q);
    BotCountsPartition(sel);
    OrgStats(|sel|, CountValid(sel), CountWarning(sel), CountExpired(sel),
             Analytics.Percent(CountValid(sel), |sel|))
  }

  /** The query matches organisation names without regard to case or to the
      blanks around it. */
  lemma OrgQueryIgnoresCase(rows: seq<BotRow>, arg: string)
    ensures OrgRows(rows, Normalize(Some(arg))) == OrgRows(rows, Normalize(Some(Normalize(Some(arg)))))
  {
    NormalizeIdempotent(Some(arg));
  }

  // ---------------------------------------------------------------- dispatch

  datatype Message = Message(chatId: int, text: Option<string>, entities: seq<Entity>)

  /** What the webhook does with an update: answer 401, answer 200 with no
      message, or send one of these replies. */
  datatype Reply =
    | Unauthorized
    | NoMessage
    | AccessDenied
    | DatabaseError
    | Help
    | ChatId(id: int)
    | StatsReply(stats: BotStats)
    | NewReply(lines: seq<string>)
    | ExpiredReply(limit: int, list: seq<BotRow>)
    | OrgUsage
    | OrgReply(arg: string, org: OrgStats)
    | UnknownCommand

  /** A reply that carries roster data. */
  predicate Reveals(r: Reply) {
    r.StatsReply? || r.NewReply? || r.ExpiredReply? || r.OrgReply?
  }

  /** What a data reply promises: `/expired` lists at most `limit` (1 to 50)
      expired rows, `/new` at most 40 lines, and `/stats` the figures of the
      loaded employees. */
  predicate ReplyBounds(reply: Reply) {
    && (reply.ExpiredReply? ==>
         1 <= reply.limit <= 50 && |reply.list| <= reply.limit
         && forall r :: r in reply.list ==> r.expired)
    && (reply.NewReply? ==> |reply.lines| <= 40)
  }

  /** The webhook handler. `secret` is `TELEGRAM_WEBHOOK_SECRET`, `header` the
      secret-token header, `message` is `update.message ?? update.edited_message`
      (`None` when neither is there; a `chatId` of 0 stands for a missing one),
      `allowIds` is the set `AllowList` builds from `TELEGRAM_ALLOWED_CHAT_IDS`
      once, when the function loads, and `employees` is the answer
      of the database, `None` on an error. */
  method HandleUpdate(
    secret: string, header: Option<string>, message: Option<Message>,
    allowIds: set<Num>, employees: Option<seq<BotEmployee>>, now: int) returns (reply: Reply)
    ensures secret != [] && header != Some(secret) ==> reply == Unauthorized
    ensures reply == NoMessage <==>
      !(secret != [] && header != Some(secret))
      && (message.None? || message.value.chatId == 0
          || |GetCommand(message.value.text, message.value.entities).text| == 0)
    ensures reply == AccessDenied <==>
      !(secret != [] && header != Some(secret)) && message.Some? && message.value.chatId != 0
      && |GetCommand(message.value.text, message.value.entities).text| > 0
      && !Allowed(allowIds, message.value.chatId)
    ensures Reveals(reply) ==>
      message.Some? && Allowed(allowIds, message.value.chatId)
      && employees.Some? && (secret == [] || header == Some(secret))
    ensures ReplyBounds(reply)
  {
    if secret != [] && header != Some(secret) {
      return Unauthorized;
    }
    reply := HandleMessage(message, allowIds, employees, now);
  }

  /** The handler once the secret token is accepted. */
  method HandleMessage(
    message: Option<Message>, allowIds: set<Num>, employees: Option<seq<BotEmployee>>, now: int)
    returns (reply: Reply)
    ensures reply != Unauthorized
    ensures reply == NoMessage <==>
      message.None? || message.value.chatId == 0
      || |GetCommand(message.value.text, message.value.entities).text| == 0
    ensures reply == AccessDenied <==>
      message.Some? && message.value.chatId != 0
      && |GetCommand(message.value.text, message.value.entities).text| > 0
      && !Allowed(allowIds, message.value.chatId)
    ensures Reveals(reply) ==>
      message.Some? && Allowed(allowIds, message.value.chatId) && employees.Some?
    ensures ReplyBounds(reply)
  {
    if message.None? || message.value.chatId == 0 {
      return NoMessage;
    }
    var msg := message.value;
    var c := GetCommand(msg.text, msg.entities);
    if |c.text| == 0 {
      return NoMessage;
    }
    reply := HandleCommand(c, msg.chatId, allowIds, employees, now);
  }

  /** The handler for a command from a known chat. */
  method HandleCommand(c: Command, chatId: int, allowIds: set<Num>, employees: Option<seq<BotEmployee>>, now: int)
    returns (reply: Reply)
    ensures reply != Unauthorized && reply != NoMessage
    ensures reply == AccessDenied <==> !Allowed(allowIds, chatId)
    ensures Reveals(reply) ==> Allowed(allowIds, chatId) && employees.Some?
    ensures ReplyBounds(reply)
  {
    if !Allowed(allowIds, chatId) {
      return AccessDenied;
    }
    reply := Answer(c, chatId, employees, now);
  }

  /** The answer to the command `c` of an allowed chat: a database error when
      the employees could not be loaded. */
  method Answer(c: Command, chatId: int, employees: Option<seq<BotEmployee>>, now: int) returns (reply: Reply)
    ensures employees.None? <==> reply == DatabaseError
    ensures Reveals(reply) ==> employees.Some?
    ensures !(reply.Unauthorized? || reply.NoMessage? || reply.AccessDenied?)
    ensures ReplyBounds(reply)
  {
    if employees.None? {
      return DatabaseError;
    }
    reply := Dispatch(c, chatId, employees.value, now);
  }

  /** The commands the bot answers; anything else gets the fallback reply. */
  predicate IsKnownCommand(cmd: string) {
    cmd in {"/help", "help", "/id", "/stats", "/new", "/expired", "/org"}
  }

  /** The answer to the command `c` of an allowed chat, once the employees
      are loaded. */
  method Dispatch(c: Command, chatId: int, es: seq<BotEmployee>, now: int) returns (reply: Reply)
    ensures !(reply.Unauthorized? || reply.NoMessage? || reply.AccessDenied? || reply.DatabaseError?)
    ensures reply == Help <==> c.cmd == "/help" || c.cmd == "help"
    ensures reply.ChatId? <==> c.cmd == "/id"
    ensures reply.ChatId? ==> reply.id == chatId
    ensures reply.StatsReply? <==> c.cmd == "/stats"
    ensures reply.StatsReply? ==> reply.stats == Stats(BotRows(es, now))
    ensures reply.NewReply? <==> c.cmd == "/new"
    ensures reply.NewReply? ==> reply.lines == NewShown(es, now)
    ensures reply.ExpiredReply? <==> c.cmd == "/expired"
    ensures reply.ExpiredReply? ==>
      reply.limit == ExpiredLimit(c.arg) && |reply.list| == Min(reply.limit, CountExpired(BotRows(es, now)))
      && forall r :: r in reply.list ==> r in BotRows(es, now) && r.expired
    ensures reply.ExpiredReply? ==>
      && multiset(reply.list) <= multiset(ExpiredOnly(BotRows(es, now)))
      && (forall i, j :: 0 <= i < j < |reply.list| ==> reply.list[i].days >= reply.list[j].days)
      && (forall x :: x in ExpiredOnly(BotRows(es, now)) && x !in reply.list ==>
            forall y :: y in reply.list ==> y.days >= x.days)
    ensures reply.OrgUsage? <==> c.cmd == "/org" && Normalize(Some(c.arg)) == []
    ensures reply.OrgReply? <==> c.cmd == "/org" && Normalize(Some(c.arg)) != []
    ensures reply.OrgReply? ==> reply.arg == c.arg && reply.org == OrgSummary(BotRows(es, now), Normalize(Some(c.arg)))
    ensures reply == UnknownCommand <==> !IsKnownCommand(c.cmd)
  {
    var rows := BotRows(es, now);
    if c.cmd == "/help" || c.cmd == "help" {
      return Help;
    }
    if c.cmd == "/id" {
      return ChatId(chatId);
    }
    if c.cmd == "/stats" {
      return StatsReply(Stats(rows));
    }
    if c.cmd == "/new" {
      return NewReply(NewShown(es, now));
    }
    if c.cmd == "/expired" {
      var limit := ExpiredLimit(c.arg);
      var list := ExpiredTop(rows, limit);
      return ExpiredReply(limit, list);
    }
    if c.cmd == "/org" {
      var q := Normalize(Some(c.arg));
      if q == [] {
        return OrgUsage;
      }
      return OrgReply(c.arg, OrgSummary(rows, q));
    }
    return UnknownCommand;
  }
}
