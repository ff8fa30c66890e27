/** The argument scanner of contrib/getopt-shim.c in permuting mode: `getopt_internal`
    as called by `getopt_long` and `getopt_long_only` when POSIXLY_CORRECT is unset. */
module Getopt {
  import Permute
  import opened Wrappers

  datatype HasArg = NoArgument | RequiredArgument | OptionalArgument

  /** One row of the long-option table; `flag` identifies the caller's variable, if any. */
  datatype LongOption = LongOption(name: string, hasArg: HasArg, flag: Option<nat>, val: int)

  datatype Config = Config(options: string, longOptions: Option<seq<LongOption>>, longOnly: bool) {
    /** `options` selects permuting mode. */
    predicate Permuting() {
      options == "" || (options[0] != '-' && options[0] != '+')
    }

    function BadArg(): int {
      if options != "" && options[0] == ':' then ':' as int else '?' as int
    }
  }

  const BADCH: int := '?' as int

  // ----- C string helpers -----------------------------------------------------

  /** `strchr`: the first index of `c` in `s`, or the length of `s`. */
  function IndexOf(s: string, c: char): (i: nat)
    ensures i <= |s| && (i < |s| ==> s[i] == c) && c !in s[..i] && (i < |s| <==> c in s)
  {
    if s == "" then 0 else if s[0] == c then 0 else 1 + IndexOf(s[1..], c)
  }

  predicate CharAt(s: string, i: nat, c: char) {
    i < |s| && s[i] == c
  }

  // ----- one option -----------------------------------------------------------

  /** What one pass over an option leaves behind; `code` is None for the return of -1. */
  datatype Parsed = Parsed(code: Option<int>, place: string, optind: nat, optarg: Option<string>)

  datatype Match = Match(index: Option<nat>, ambiguous: bool)

  predicate Identical(x: LongOption, y: LongOption) {
    x.hasArg == y.hasArg && x.flag == y.flag && x.val == y.val
  }

  /** The table search of `parse_long_options`, from row `i` on. */
  function Search(table: seq<LongOption>, i: nat, word: string, shortToo: bool, found: Match): (m: Match)
    requires i <= |table| && (found.index.Some? ==> found.index.value < |table|)
    ensures m.index.Some? ==> m.index.value < |table|
    decreases |table| - i
  {
    if i == |table| then found
    else if !(word <= table[i].name) then Search(table, i + 1, word, shortToo, found)
    else if |table[i].name| == |word| then Match(Some(i), false)
    else if shortToo && |word| == 1 then Search(table, i + 1, word, shortToo, found)
    else if found.index.None? then Search(table, i + 1, word, shortToo, found.(index := Some(i)))
    else if !Identical(table[i], table[found.index.value]) then
      Search(table, i + 1, word, shortToo, found.(ambiguous := true))
    else Search(table, i + 1, word, shortToo, found)
  }

  /** A row the word abbreviates. A single character that is a known short option
      abbreviates nothing. */
  predicate Abbreviates(word: string, row: LongOption, shortToo: bool) {
    word < row.name && !(shortToo && |word| == 1)
  }

  /** The rows differ in what they take or in what they yield. */
  predicate MeansElse(x: LongOption, y: LongOption) {
    x.hasArg != y.hasArg || x.flag != y.flag || x.val != y.val
  }

  /** No row before `n` has the word for its name; `m` is the first it abbreviates, ambiguous
      if it abbreviates another that means something else. */
  ghost predicate Abbreviated(table: seq<LongOption>, n: nat, word: string, shortToo: bool, m: Match) {
    && n <= |table| && (forall i :: 0 <= i < n ==> table[i].name != word)
    && (m.index.None? ==> !m.ambiguous && forall i :: 0 <= i < n ==> !Abbreviates(word, table[i], shortToo))
    && (m.index.Some? ==>
          && m.index.value < n && Abbreviates(word, table[m.index.value], shortToo)
          && (forall i :: 0 <= i < m.index.value ==> !Abbreviates(word, table[i], shortToo))
          && (m.ambiguous <==> exists i :: 0 <= i < n && Abbreviates(word, table[i], shortToo)
                                           && MeansElse(table[i], table[m.index.value])))
  }

  /** The first row with that name or, if there is none, what the word abbreviates. */
  ghost predicate Finds(table: seq<LongOption>, word: string, shortToo: bool, m: Match) {
    if exists i :: 0 <= i < |table| && table[i].name == word then
      && !m.ambiguous && m.index.Some? && m.index.value < |table| && table[m.index.value].name == word
      && forall i :: 0 <= i < m.index.value ==> table[i].name != word
    else Abbreviated(table, |table|, word, shortToo, m)
  }

  lemma NotYet(table: seq<LongOption>, n: nat, word: string, shortToo: bool, found: Match, next: Match)
    requires n < |table| && Abbreviated(table, n, word, shortToo, found) && table[n].name != word
    requires next == if !Abbreviates(word, table[n], shortToo) then found
                     else if found.index.None? then Match(Some(n), false)
                     else if !Identical(table[n], table[found.index.value]) then found.(ambiguous := true)
                     else found
    ensures Abbreviated(table, n + 1, word, shortToo, next)
  {
  }

  /** The search finds what the rule says. */
  lemma {:induction false} SearchFinds(table: seq<LongOption>, i: nat, word: string, shortToo: bool, found: Match)
    requires i <= |table| && Abbreviated(table, i, word, shortToo, found)
    ensures Finds(table, word, shortToo, Search(table, i, word, shortToo, found))
    decreases |table| - i
  {
    if i < |table| && table[i].name != word {
      hide Abbreviated, Finds, Identical;
      var next := if !Abbreviates(word, table[i], shortToo) then found
                  else if found.index.None? then Match(Some(i), false)
                  else if !Identical(table[i], table[found.index.value]) then found.(ambiguous := true)
                  else found;
      FoundBefore(table, i, word, shortToo, found);
      NotYet(table, i, word, shortToo, found, next);
      SearchFinds(table, i + 1, word, shortToo, next);
    }
  }

  lemma FoundBefore(table: seq<LongOption>, n: nat, word: string, shortToo: bool, m: Match)
    requires Abbreviated(table, n, word, shortToo, m)
    ensures (m.index.None? ==> !m.ambiguous) && (m.index.Some? ==> m.index.value < n <= |table|)
  {
  }

  /** The search loop itself. */
  method SearchTable(table: seq<LongOption>, word: string, shortToo: bool) returns (m: Match)
    ensures m == Search(table, 0, word, shortToo, Match(None, false)) && Finds(table, word, shortToo, m)
  {
    SearchFinds(table, 0, word, shortToo, Match(None, false));
    m := Match(None, false);
    var i := 0;
    while i < |table|
      invariant 0 <= i <= |table| && (m.index.Some? ==> m.index.value < |table|)
      invariant Search(table, i, word, shortToo, m) == Search(table, 0, word, shortToo, Match(None, false))
    {
      if word <= table[i].name {
        if |table[i].name| == |word| {
          return Match(Some(i), false);
        }
        if !(shortToo && |word| == 1) {
          if m.index.None? {
            m := m.(index := Some(i));
          } else if !Identical(table[i], table[m.index.value]) {
            m := m.(ambiguous := true);
          }
        }
      }
      i := i + 1;
    }
  }

  /** `parse_long_options`, for the word at `place`; None when `short_too` asks to go on
      with a short option. Reading one past the last argument yields a null pointer. */
  function ParseLong(cfg: Config, argv: seq<string>, optind: nat, place: string, shortToo: bool): (r: Option<Parsed>)
    requires cfg.longOptions.Some? && optind < |argv|
    ensures r.None? ==> shortToo
    ensures r.Some? ==> r.value.place == "" && optind < r.value.optind <= |argv| && r.value.code.Some?
  {
    var table := cfg.longOptions.value;
    var eq := IndexOf(place, '=');
    var hasEqual := eq < |place|;
    var m := Search(table, 0, place[..eq], shortToo, Match(None, false));
    if m.ambiguous then Some(Parsed(Some(BADCH), "", optind + 1, None))
    else if m.index.None? then
      if shortToo then None else Some(Parsed(Some(BADCH), "", optind + 1, None))
    else
      var o := table[m.index.value];
      var code := if o.flag.Some? then 0 else o.val;
      if o.hasArg == NoArgument && hasEqual then Some(Parsed(Some(cfg.BadArg()), "", optind + 1, None))
      else if o.hasArg != NoArgument && hasEqual then Some(Parsed(Some(code), "", optind + 1, Some(place[eq + 1..])))
      else if o.hasArg == RequiredArgument then
        if optind + 1 < |argv| then Some(Parsed(Some(code), "", optind + 2, Some(argv[optind + 1])))
        else Some(Parsed(Some(cfg.BadArg()), "", optind + 1, None))
      else Some(Parsed(Some(code), "", optind + 1, None))
  }

  /** The short-option part of `getopt_internal`. */
  function ParseShort(cfg: Config, argv: seq<string>, optind: nat, place: string): (r: Parsed)
    requires optind < |argv| && place != ""
    ensures Advances(argv, optind, place, r)
  {
    var optchar, rest := place[0], place[1..];
    var oli := IndexOf(cfg.options, optchar);
    if optchar == ':' || (optchar == '-' && rest != "") || oli == |cfg.options| then
      if optchar == '-' && rest == "" then Parsed(None, rest, optind, None)
      else Parsed(Some(BADCH), rest, if rest == "" then optind + 1 else optind, None)
    else if cfg.longOptions.Some? && optchar == 'W' && CharAt(cfg.options, oli + 1, ';') then
      if rest != "" then ParseLong(cfg, argv, optind, rest, false).value
      else if optind + 1 >= |argv| then Parsed(Some(cfg.BadArg()), "", optind + 1, None)
      else ParseLong(cfg, argv, optind + 1, argv[optind + 1], false).value
    else if !CharAt(cfg.options, oli + 1, ':') then
      Parsed(Some(optchar as int), rest, if rest == "" then optind + 1 else optind, None)
    else if rest != "" then Parsed(Some(optchar as int), "", optind + 1, Some(rest))
    else if CharAt(cfg.options, oli + 2, ':') then Parsed(Some(optchar as int), "", optind + 1, None)
    else if optind + 1 >= |argv| then Parsed(Some(cfg.BadArg()), "", optind + 1, None)
    else Parsed(Some(optchar as int), "", optind + 2, Some(argv[optind + 1]))
  }

  /** Everything after the scanning pointer is set: long option first, then short. */
  function ParseOption(cfg: Config, argv: seq<string>, optind: nat, place: string): (r: Parsed)
    requires optind < |argv| && place != ""
    ensures Advances(argv, optind, place, r)
  {
    if cfg.longOptions.Some? && |place| != |argv[optind]| && (place[0] == '-' || cfg.longOnly) then
      if place[0] == '-' then ParseLong(cfg, argv, optind, place[1..], false).value
      else
        var shortToo := place[0] != ':' && place[0] in cfg.options;
        var r := ParseLong(cfg, argv, optind, place, shortToo);
        if r.Some? then r.value else ParseShort(cfg, argv, optind, place)
    else ParseShort(cfg, argv, optind, place)
  }

  /** A pass either stays inside its word, with less of it left, or leaves the word for a
      later one. Only the return of -1 does neither. */
  predicate Advances(argv: seq<string>, optind: nat, place: string, r: Parsed) {
    && (r.code.None? ==> r.place == "" && r.optind == optind && r.optarg == None)
    && (r.code.Some? && r.place == "" ==> optind < r.optind <= |argv|)
    && (r.place != "" ==> r.optind == optind && |r.place| < |place|)
  }

  // ----- what the scan means --------------------------------------------------

  /** A word the scanner passes over: not a dash word, or a lone `-` that is no option. */
  predicate IsNonOption(cfg: Config, word: string) {
    word == "" || word[0] != '-' || (|word| == 1 && '-' !in cfg.options)
  }

  /** Where the scanning pointer starts inside an option word. */
  function WordStart(word: string): (place: string)
    requires word != ""
    ensures place != ""
  {
    if |word| > 1 then word[1..] else word
  }

  /** The index after the group of options at `place`, or None where the scanner gives up. */
  function GroupEnd(cfg: Config, argv: seq<string>, i: nat, place: string): (e: Option<nat>)
    requires i < |argv| && place != ""
    ensures e.Some? ==> i < e.value <= |argv|
    decreases |place|
  {
    var r := ParseOption(cfg, argv, i, place);
    if r.code.None? then None
    else if r.place == "" then Some(r.optind)
    else GroupEnd(cfg, argv, i, r.place)
  }

  /** The intended reading of `argv` from `i` on: its option words with their arguments
      and any `--`, and its non-options, each in order. */
  datatype Reading = Reading(opts: seq<string>, nons: seq<string>) | Stuck

  function Read(cfg: Config, argv: seq<string>, i: nat): (r: Reading)
    requires i <= |argv|
    decreases |argv| - i
  {
    if i == |argv| then Reading([], [])
    else if IsNonOption(cfg, argv[i]) then
      var r := Read(cfg, argv, i + 1);
      if r.Stuck? then Stuck else r.(nons := [argv[i]] + r.nons)
    else if argv[i] == "--" then Reading(["--"], argv[i + 1..])
    else ReadGroup(cfg, argv, i, WordStart(argv[i]))
  }

  function ReadGroup(cfg: Config, argv: seq<string>, i: nat, place: string): (r: Reading)
    requires i < |argv| && place != ""
    decreases |argv| - i, 0
  {
    var e := GroupEnd(cfg, argv, i, place);
    if e.None? then Stuck
    else
      var r := Read(cfg, argv, e.value);
      if r.Stuck? then Stuck else r.(opts := argv[i..e.value] + r.opts)
  }

  /** One result of a call: the option's code and its argument. */
  datatype Event = Event(code: int, arg: Option<string>)

  /** The options of `argv` from `i` on, one after the other, up to `--`, the end, or a word
      that is given up on. */
  function Events(cfg: Config, argv: seq<string>, i: nat): seq<Event>
    requires i <= |argv|
    decreases |argv| - i
  {
    if i == |argv| then []
    else if IsNonOption(cfg, argv[i]) then Events(cfg, argv, i + 1)
    else if argv[i] == "--" then []
    else GroupEvents(cfg, argv, i, WordStart(argv[i]))
  }

  /** Those of the group at `place`, and what follows it. */
  function GroupEvents(cfg: Config, argv: seq<string>, i: nat, place: string): seq<Event>
    requires i < |argv| && place != ""
    decreases |argv| - i, 0, |place|
  {
    var r := ParseOption(cfg, argv, i, place);
    if r.code.None? then []
    else
      [Event(r.code.value, r.optarg)]
      + if r.place == "" then Events(cfg, argv, r.optind) else GroupEvents(cfg, argv, i, r.place)
  }

  // ----- what an option yields, told by the words and the option string -------------

  /** The letter stands in the option string, first at `k`. */
  predicate LetterAt(options: string, c: char, k: nat) {
    k < |options| && options[k] == c && forall j :: 0 <= j < k ==> options[j] != c
  }

  /** The rest of the word is still to be read, or there is none and the word is done. */
  predicate GoesOn(i: nat, rest: string, r: Parsed) {
    r.optarg == None && r.place == rest && r.optind == if rest == "" then i + 1 else i
  }

  /** So many words are done, and their last bytes were the argument, if there is one. */
  predicate Takes(i: nat, n: nat, arg: Option<string>, r: Parsed) {
    r.place == "" && r.optind == i + n && r.optarg == arg
  }

  /** The code of an argument missing or too much: `:` if the option string starts with it. */
  predicate Complains(cfg: Config, i: nat, r: Parsed) {
    && Takes(i, 1, None, r)
    && r.code == Some(if cfg.options != "" && cfg.options[0] == ':' then ':' as int else '?' as int)
  }

  /** The whole next word is the argument; there has to be one. */
  predicate TakesNext(cfg: Config, argv: seq<string>, i: nat, code: int, r: Parsed) {
    if i + 1 < |argv| then r.code == Some(code) && Takes(i, 2, Some(argv[i + 1]), r) else Complains(cfg, i, r)
  }

  /** A letter without colon takes nothing. With one it takes the rest of its word, or the
      whole next word if it is the last of its own; with two it takes the rest of its word
      or nothing. */
  ghost predicate LetterYields(cfg: Config, argv: seq<string>, i: nat, c: char, k: nat, rest: string, r: Parsed) {
    if k + 1 >= |cfg.options| || cfg.options[k + 1] != ':' then r.code == Some(c as int) && GoesOn(i, rest, r)
    else if rest != "" then r.code == Some(c as int) && Takes(i, 1, Some(rest), r)
    else if k + 2 < |cfg.options| && cfg.options[k + 2] == ':' then r.code == Some(c as int) && Takes(i, 1, None, r)
    else TakesNext(cfg, argv, i, c as int, r)
  }

  /** The name stands before the first `=`, the value behind it. */
  ghost predicate Splits(text: string, name: string, value: Option<string>) {
    '=' !in name && text == match value case None => name case Some(v) => name + "=" + v
  }

  /** A row yields 0 if it has a flag, else its value. Its argument is what follows `=` or, if
      it has to have one, the whole next word. */
  ghost predicate RowYields(cfg: Config, argv: seq<string>, i: nat, row: LongOption, value: Option<string>, r: Parsed) {
    var code := match row.flag case Some(_) => 0 case None => row.val;
    match row.hasArg
    case NoArgument => if value.Some? then Complains(cfg, i, r) else r.code == Some(code) && Takes(i, 1, None, r)
    case OptionalArgument => r.code == Some(code) && Takes(i, 1, value, r)
    case RequiredArgument =>
      if value.Some? then r.code == Some(code) && Takes(i, 1, value, r) else TakesNext(cfg, argv, i, code, r)
  }

  /** The row is the first with the name or, if there is none, one it abbreviates, and nothing
      else it abbreviates means something else. */
  ghost predicate Means(cfg: Config, name: string, shortToo: bool, row: LongOption) {
    cfg.longOptions.Some? && exists j :: 0 <= j < |cfg.longOptions.value| && cfg.longOptions.value[j] == row
                                       && Finds(cfg.longOptions.value, name, shortToo, Match(Some(j), false))
  }

  /** Unknown and ambiguous names yield `?`. */
  ghost predicate NameYields(cfg: Config, argv: seq<string>, i: nat, name: string, value: Option<string>, shortToo: bool,
                             r: Parsed) {
    || (exists row :: Means(cfg, name, shortToo, row) && RowYields(cfg, argv, i, row, value, r))
    || ((forall row :: !Means(cfg, name, shortToo, row)) && r.code == Some('?' as int) && Takes(i, 1, None, r))
  }

  /** What the text of a long option yields. */
  ghost predicate TextYields(cfg: Config, argv: seq<string>, i: nat, text: string, shortToo: bool, r: Parsed) {
    exists name, value :: Splits(text, name, value) && NameYields(cfg, argv, i, name, value, shortToo, r)
  }

  /** No row of the table is named or abbreviated by the text. */
  ghost predicate NotNamed(cfg: Config, text: string) {
    && cfg.longOptions.Some?
    && exists name, value :: Splits(text, name, value) && Finds(cfg.longOptions.value, name, true, Match(None, false))
  }

  /** A `W` marked with `;` is a long option spelt in the rest of its word or in the next. */
  ghost predicate KnownYields(cfg: Config, argv: seq<string>, i: nat, c: char, k: nat, rest: string, r: Parsed) {
    if cfg.longOptions.None? || c != 'W' || k + 1 >= |cfg.options| || cfg.options[k + 1] != ';' then
      LetterYields(cfg, argv, i, c, k, rest, r)
    else if rest != "" then TextYields(cfg, argv, i, rest, false, r)
    else if i + 1 < |argv| then TextYields(cfg, argv, i + 1, argv[i + 1], false, r)
    else Complains(cfg, i, r)
  }

  /** What the short option at the start of `place` yields. A lone dash that is no option
      letter is given up on. */
  ghost predicate ShortYields(cfg: Config, argv: seq<string>, i: nat, place: string, r: Parsed)
    requires place != ""
  {
    var c, rest := place[0], place[1..];
    if c == '-' && rest == "" && c !in cfg.options then r == Parsed(None, "", i, None)
    else if c == ':' || (c == '-' && rest != "") || c !in cfg.options then r.code == Some('?' as int) && GoesOn(i, rest, r)
    else exists k: nat :: LetterAt(cfg.options, c, k) && KnownYields(cfg, argv, i, c, k, rest, r)
  }

  /** What the option at `place` of word `i` yields. */
  ghost predicate Yields(cfg: Config, argv: seq<string>, i: nat, place: string, r: Parsed)
    requires i < |argv| && place != ""
  {
    if cfg.longOptions.None? || |place| == |argv[i]| || (place[0] != '-' && !cfg.longOnly) then
      ShortYields(cfg, argv, i, place, r)
    else if place[0] == '-' then TextYields(cfg, argv, i, place[1..], false, r)
    else if place[0] == ':' || place[0] !in cfg.options then TextYields(cfg, argv, i, place, false, r)
    else if NotNamed(cfg, place) then ShortYields(cfg, argv, i, place, r)
    else TextYields(cfg, argv, i, place, true, r)
  }

  lemma SplitAt(text: string) returns (name: string, value: Option<string>)
    ensures var eq := IndexOf(text, '=');
            name == text[..eq] && value == if eq < |text| then Some(text[eq + 1..]) else None
    ensures Splits(text, name, value)
  {
    var eq := IndexOf(text, '=');
    name, value := text[..eq], if eq < |text| then Some(text[eq + 1..]) else None;
    if eq < |text| {
      assert text == text[..eq] + "=" + text[eq + 1..];
    }
  }

  /** There is one match only. */
  lemma FindsOne(table: seq<LongOption>, word: string, shortToo: bool, m: Match, m': Match)
    requires Finds(table, word, shortToo, m) && Finds(table, word, shortToo, m')
    ensures m == m'
  {
  }

  lemma SplitsOne(text: string, name: string, value: Option<string>)
    requires Splits(text, name, value)
    ensures name == text[..IndexOf(text, '=')]
  {
    var eq := IndexOf(text, '=');
    if value.Some? {
      assert text[|name|] == '=' && text[..|name|] == name;
    }
    assert eq == |name|;
  }

  lemma FoundRow(cfg: Config, name: string, shortToo: bool, j: nat)
    requires cfg.longOptions.Some? && j < |cfg.longOptions.value|
    requires Finds(cfg.longOptions.value, name, shortToo, Match(Some(j), false))
    ensures Means(cfg, name, shortToo, cfg.longOptions.value[j])
  {
  }

  lemma FoundNone(cfg: Config, name: string, shortToo: bool, m: Match, row: LongOption)
    requires cfg.longOptions.Some? && Finds(cfg.longOptions.value, name, shortToo, m) && (m.index.None? || m.ambiguous)
    ensures !Means(cfg, name, shortToo, row)
  {
    if Means(cfg, name, shortToo, row) {
      hide Finds;
      var j: nat :| j < |cfg.longOptions.value| && Finds(cfg.longOptions.value, name, shortToo, Match(Some(j), false));
      FindsOne(cfg.longOptions.value, name, shortToo, m, Match(Some(j), false));
    }
  }

  lemma LongYields(cfg: Config, argv: seq<string>, i: nat, text: string, shortToo: bool)
    requires cfg.longOptions.Some? && i < |argv|
    ensures var r := ParseLong(cfg, argv, i, text, shortToo);
            if r.Some? then TextYields(cfg, argv, i, text, shortToo, r.value) && !(shortToo && NotNamed(cfg, text))
            else shortToo && NotNamed(cfg, text)
  {
    hide Finds, IndexOf, Search, Splits, Means;
    var name, value := SplitAt(text);
    var table := cfg.longOptions.value;
    var m := Search(table, 0, name, shortToo, Match(None, false));
    SearchAll(table, name, shortToo);
    if m.index.Some? && !m.ambiguous {
      FoundRow(cfg, name, shortToo, m.index.value);
    } else {
      forall row ensures !Means(cfg, name, shortToo, row) {
        FoundNone(cfg, name, shortToo, m, row);
      }
    }
    if shortToo && NotNamed(cfg, text) {
      var n, v :| Splits(text, n, v) && Finds(table, n, true, Match(None, false));
      SplitsOne(text, n, v);
      FindsOne(table, name, true, m, Match(None, false));
    }
  }

  lemma SearchAll(table: seq<LongOption>, name: string, shortToo: bool)
    ensures var m := Search(table, 0, name, shortToo, Match(None, false));
            Finds(table, name, shortToo, m) && (m.index.None? ==> !m.ambiguous)
  {
    SearchFinds(table, 0, name, shortToo, Match(None, false));
  }

  lemma LetterIs(cfg: Config, argv: seq<string>, i: nat, place: string)
    requires i < |argv| && place != ""
    ensures ShortYields(cfg, argv, i, place, ParseShort(cfg, argv, i, place))
  {
    hide TextYields, ParseLong;
    var c, rest, k := place[0], place[1..], IndexOf(cfg.options, place[0]);
    if k < |cfg.options| {
      assert LetterAt(cfg.options, c, k);
    }
    if cfg.longOptions.Some? && rest != "" {
      LongYields(cfg, argv, i, rest, false);
    } else if cfg.longOptions.Some? && i + 1 < |argv| {
      LongYields(cfg, argv, i + 1, argv[i + 1], false);
    }
  }

  /** The pass over an option gives what it should. */
  lemma OptionYields(cfg: Config, argv: seq<string>, i: nat, place: string)
    requires i < |argv| && place != ""
    ensures Yields(cfg, argv, i, place, ParseOption(cfg, argv, i, place))
  {
    hide TextYields, ParseLong, ParseShort, ShortYields, NotNamed;
    LetterIs(cfg, argv, i, place);
    if cfg.longOptions.Some? {
      LongYields(cfg, argv, i, place[1..], false);
      LongYields(cfg, argv, i, place, false);
      LongYields(cfg, argv, i, place, true);
    }
  }

  /** The events are those the words tell, from `place` in word `i` on, or from word `i` on
      if `place` is empty: words that are no options are passed over, `--` ends the options,
      and so does an option that is given up on. */
  ghost predicate Told(cfg: Config, argv: seq<string>, i: nat, place: string, events: seq<Event>)
    requires i <= |argv|
    decreases |events|, |argv| - i, place == ""
  {
    if place != "" then i < |argv| && exists r :: Yields(cfg, argv, i, place, r) && FromHere(cfg, argv, i, r, events)
    else if i == |argv| || argv[i] == "--" then events == []
    else if argv[i] == "" || argv[i][0] != '-' || (argv[i] == "-" && '-' !in cfg.options) then
      Told(cfg, argv, i + 1, "", events)
    else Told(cfg, argv, i, if |argv[i]| > 1 then argv[i][1..] else argv[i], events)
  }

  /** This option is the first event, unless it is given up on. */
  ghost predicate FromHere(cfg: Config, argv: seq<string>, i: nat, r: Parsed, events: seq<Event>)
    decreases |events|, 0
  {
    if r.code.None? then events == []
    else
      && events != [] && events[0] == Event(r.code.value, r.optarg) && r.optind <= |argv|
      && Told(cfg, argv, r.optind, r.place, events[1..])
  }

  /** What the scanner returns is what the words tell. */
  lemma {:induction false} EventsTold(cfg: Config, argv: seq<string>, i: nat)
    requires i <= |argv|
    ensures Told(cfg, argv, i, "", Events(cfg, argv, i))
    decreases |argv| - i, 1, 0
  {
    hide ParseOption, Yields;
    if i < |argv| {
      if IsNonOption(cfg, argv[i]) {
        EventsTold(cfg, argv, i + 1);
      } else if argv[i] != "--" {
        GroupTold(cfg, argv, i, WordStart(argv[i]));
      }
    }
  }

  lemma {:induction false} GroupTold(cfg: Config, argv: seq<string>, i: nat, place: string)
    requires i < |argv| && place != ""
    ensures Told(cfg, argv, i, place, GroupEvents(cfg, argv, i, place))
    decreases |argv| - i, 0, |place|
  {
    hide ParseOption, Yields, IsNonOption;
    var r, events := ParseOption(cfg, argv, i, place), GroupEvents(cfg, argv, i, place);
    OptionYields(cfg, argv, i, place);
    if r.code.Some? {
      if r.place == "" {
        EventsTold(cfg, argv, r.optind);
      } else {
        GroupTold(cfg, argv, i, r.place);
      }
      assert events[1..] == if r.place == "" then Events(cfg, argv, r.optind) else GroupEvents(cfg, argv, i, r.place);
    }
    assert FromHere(cfg, argv, i, r, events);
  }

  /** The scanner has consumed `orig[start..optind]`, read so far as the options `o1 + o2`
      with the non-options `n` still standing between them. */
  ghost predicate Arranged(now: seq<string>, orig: seq<string>, start: nat, optind: nat,
                           o1: seq<string>, n: seq<string>, o2: seq<string>)
  {
    && start <= optind <= |orig| == |now|
    && start + |o1| + |n| + |o2| == optind
    && now[start..optind] == o1 + n + o2
    && now[..start] == orig[..start]
    && now[optind..] == orig[optind..]
  }

  /** The two block marks of the scanner, `nonopt_start` and `nonopt_end`. */
  ghost predicate Marks(start: nat, optind: nat, nonoptStart: int, nonoptEnd: int, open: bool,
                        o1: seq<string>, n: seq<string>, o2: seq<string>)
  {
    if nonoptStart == -1 then nonoptEnd == -1 && n == [] && o2 == []
    else if nonoptEnd == -1 then n != [] && o2 == [] && nonoptStart == start + |o1| && !open
    else n != [] && (o2 != [] || open) && nonoptStart == start + |o1| && nonoptEnd == start + |o1| + |n|
  }

  /** Prepend what has been read to what is still to be read. */
  ghost function After(o: seq<string>, n: seq<string>, r: Reading): Reading {
    if r.Stuck? then Stuck else Reading(o + r.opts, n + r.nons)
  }

  /** Exchanging the middle blocks of a concatenation. */
  lemma ExchangeMiddle(front: seq<string>, x: seq<string>, y: seq<string>, z: seq<string>, back: seq<string>)
    ensures var a := |front| + |x|;
            Permute.Exchanged(front + x + y + z + back, a, a + |y|, a + |y| + |z|) == front + x + z + y + back
  {
    var t := front + x + y + z + back;
    InTheMiddle(front + x + y, z, back);
    var u := front + x + y;
    assert t[..|u|] == u;
    assert u[..|front| + |x|] == front + x && u[|front| + |x|..] == y;
    FirstOf(t, |u|, |front| + |x|);
  }

  lemma FirstOf(t: seq<string>, n: nat, k: nat)
    requires k <= n <= |t|
    ensures t[..n][..k] == t[..k] && t[..n][k..] == t[k..n]
  {
  }

  lemma Regrouped(front: seq<string>, x: seq<string>, y: seq<string>, z: seq<string>, back: seq<string>)
    ensures front + x + y + z + back == front + (x + y + z) + back
  {
  }

  /** Moving the trailing options in front of the non-options keeps the arrangement. */
  lemma ExchangeArranges(now: seq<string>, orig: seq<string>, start: nat, optind: nat,
                         o1: seq<string>, n: seq<string>, o2: seq<string>)
    requires Arranged(now, orig, start, optind, o1, n, o2)
    ensures Arranged(Permute.Exchanged(now, start + |o1|, start + |o1| + |n|, optind), orig, start, optind, o1 + o2, n, [])
  {
    hide Permute.Exchanged;
    var front, back := now[..start], now[optind..];
    WholeOf(now, start, optind, o1 + n + o2);
    Regrouped(front, o1, n, o2, back);
    ExchangeMiddle(front, o1, n, o2, back);
    Regrouped(front, o1, o2, n, back);
    InTheMiddle(front, o1 + o2 + n, back);
    assert o1 + o2 + n == (o1 + o2) + n + [];
  }

  lemma WholeOf(s: seq<string>, from: nat, to: nat, middle: seq<string>)
    requires from <= to <= |s| && s[from..to] == middle
    ensures s == s[..from] + middle + s[to..]
  {
  }

  lemma InTheMiddle(front: seq<string>, s: seq<string>, back: seq<string>)
    ensures var t := front + s + back;
            t[..|front|] == front && t[|front|..|front| + |s|] == s && t[|front| + |s|..] == back
  {
  }

  class Scanner {
    const cfg: Config
    const nargv: array<string>
    var optind: nat
    var place: string
    var optarg: Option<string>
    var nonoptStart: int
    var nonoptEnd: int

    ghost const orig: seq<string>
    ghost const start: nat
    ghost var o1: seq<string>
    ghost var n: seq<string>
    ghost var o2: seq<string>

    /** Scanning is under way: what has been read and what remains make up the reading
        of the original arguments. */
    ghost predicate Valid()
      reads this, nargv
    {
      && cfg.Permuting() && start <= optind <= |orig| == nargv.Length
      && Arranged(nargv[..], orig, start, optind, o1, n, o2)
      && Marks(start, optind, nonoptStart, nonoptEnd, place != "", o1, n, o2)
      && (place != "" ==>
            && optind < |orig| && !IsNonOption(cfg, orig[optind])
            && Read(cfg, orig, start) == After(o1 + o2, n, ReadGroup(cfg, orig, optind, place)))
      && (place == "" ==> Read(cfg, orig, start) == After(o1 + o2, n, Read(cfg, orig, optind)))
    }

    /** The options still to be returned. */
    ghost function Pending(): seq<Event>
      reads this`optind, this`place
    {
      if place != "" && optind < |orig| then GroupEvents(cfg, orig, optind, place)
      else if optind <= |orig| then Events(cfg, orig, optind)
      else []
    }

    /** The scan is over: options first, then non-options, `optind` between them. */
    ghost predicate Finished()
      reads this, nargv
    {
      start <= |orig| &&
      var r := Read(cfg, orig, start);
      && r.Reading?
      && nargv[..] == orig[..start] + r.opts + r.nons
      && optind == start + |r.opts| && nonoptStart == nonoptEnd == -1
    }

    /** The scan gave up inside a word that still has to be handled. */
    ghost predicate GaveUp()
      reads this, nargv
    {
      && start <= |orig| && Read(cfg, orig, start) == Stuck
      && optind < nargv.Length == |orig| && nargv[optind] == orig[optind] && !IsNonOption(cfg, nargv[optind])
    }

    constructor (cfg: Config, nargv: array<string>, start: nat)
      requires cfg.Permuting() && start <= nargv.Length
      ensures Valid() && fresh(this) && this.cfg == cfg && this.nargv == nargv && this.start == start
      ensures orig == nargv[..] && optind == start
    {
      this.cfg, this.nargv, this.start := cfg, nargv, start;
      optind, place, optarg, nonoptStart, nonoptEnd := start, "", None, -1, -1;
      orig, o1, n, o2 := nargv[..], [], [], [];
    }

    /** Every permutation is asked for two non-empty adjacent blocks; it brings the
        options in front and leaves the marks to the caller. */
    method PermuteBlocks()
      requires Arranged(nargv[..], orig, start, optind, o1, n, o2)
      requires n != [] && o2 != [] && nonoptStart == start + |o1| && nonoptEnd == start + |o1| + |n|
      modifies this`o1, this`o2, nargv
      ensures Arranged(nargv[..], orig, start, optind, o1, n, o2)
      ensures o1 == old(o1 + o2) && o2 == []
    {
      hide Permute.Exchanged;
      ArrangedLength(nargv[..], orig, start, optind, o1, n, o2);
      ExchangeArranges(nargv[..], orig, start, optind, o1, n, o2);
      hide Arranged;
      Permute.PermuteArgs(nonoptStart, nonoptEnd, optind, nargv);
      o1, o2 := o1 + o2, [];
    }

    /** The end of the argument vector. */
    method FinishVector()
      requires Valid() && place == "" && optind == nargv.Length
      modifies this, nargv
      ensures Finished() && old(Pending()) == [] && optarg == old(optarg)
    {
      hide Arranged, Read;
      ReadEnd(cfg, orig, o1 + o2, n);
      FinishPermutation(optind);
    }

    /** A non-option: remember where its block starts, or bring the options seen since
        in front of the block. */
    method PassNonOption()
      requires Valid() && place == "" && optind < nargv.Length && IsNonOption(cfg, nargv[optind])
      modifies this, nargv
      ensures Valid() && place == "" && optind == old(optind) + 1 && Pending() == old(Pending()) && optarg == old(optarg)
    {
      hide Arranged, Read, IsNonOption, Events, GroupEvents;
      ArrangedLength(nargv[..], orig, start, optind, o1, n, o2);
      EventsPassed(cfg, orig, optind);
      ReadNonOption(cfg, orig, optind, o1 + o2, n);
      if nonoptStart == -1 {
        nonoptStart := optind;
      } else if nonoptEnd != -1 {
        PermuteBlocks();
        nonoptStart := optind - (nonoptEnd - nonoptStart);
        nonoptEnd := -1;
      }
      assert o1 + o2 == o1;
      ExtendNonOptions(nargv[..], orig, start, optind, o1, n);
      n := n + [orig[optind]];
      optind := optind + 1;
    }

    /** `--`: it counts as an option, everything behind it stays where it is. */
    method FinishAtDashes()
      requires Valid() && place == "" && optind < nargv.Length && nargv[optind] == "--"
      modifies this, nargv
      ensures Finished() && old(Pending()) == [] && optarg == old(optarg)
    {
      hide Arranged, Read, ReadGroup, IsNonOption, Events, GroupEvents;
      ArrangedLength(nargv[..], orig, start, optind, o1, n, o2);
      DashesEnd(cfg, orig, optind);
      ReadDashes(cfg, orig, optind, o1 + o2, n);
      hide After;
      if nonoptStart != -1 && nonoptEnd == -1 { nonoptEnd := optind; }
      optind := optind + 1;
      AppendOptions(optind - 1);
      FinishPermutation(optind);
    }

    /** What both ends of the scan do last: permute if options followed the non-options.
        (At `--` the second branch never arises, since its block has been closed.) */
    method FinishPermutation(ghost end: nat)
      requires Arranged(nargv[..], orig, start, optind, o1, n, o2) && end == optind
      requires Marks(start, optind, nonoptStart, nonoptEnd, false, o1, n, o2)
      requires start <= |orig| && Read(cfg, orig, start) == Reading(o1 + o2, n + orig[optind..])
      modifies this, nargv
      ensures Finished() && optarg == old(optarg)
    {
      hide Arranged, Read;
      ArrangedLength(nargv[..], orig, start, optind, o1, n, o2);
      if nonoptEnd != -1 {
        PermuteBlocks();
        optind := optind - (nonoptEnd - nonoptStart);
      } else if nonoptStart != -1 {
        optind := nonoptStart;
      }
      assert o1 + o2 == o1;
      nonoptStart, nonoptEnd := -1, -1;
      FinalLayout(nargv[..], orig, start, end, o1, n);
    }

    /** Bookkeeping: the words `orig[from..optind]` have been read as options. */
    ghost method AppendOptions(from: nat)
      requires from <= optind <= |orig| && Arranged(nargv[..], orig, start, from, o1, n, o2)
      requires nonoptStart == -1 ==> n == [] && o2 == []
      modifies this`o1, this`o2
      ensures Arranged(nargv[..], orig, start, optind, o1, n, o2)
      ensures o1 + o2 == old(o1 + o2) + orig[from..optind]
      ensures if nonoptStart == -1 then o2 == [] else o1 == old(o1) && o2 == old(o2) + orig[from..optind]
    {
      ExtendOptions(nargv[..], orig, start, from, optind, o1, n, o2);
      if nonoptStart == -1 { o1 := o1 + orig[from..optind]; } else { o2 := o2 + orig[from..optind]; }
    }

    /** An option word: mark the end of the pending non-options and step into the word. */
    method OpenWord()
      requires Valid() && place == "" && optind < nargv.Length
      requires !IsNonOption(cfg, nargv[optind]) && nargv[optind] != "--"
      modifies this
      ensures Valid() && optind == old(optind) < |orig| && orig[optind] != "" && place == WordStart(orig[optind])
      ensures Pending() == old(Pending()) && optarg == old(optarg)
    {
      hide Arranged;
      ArrangedLength(nargv[..], orig, start, optind, o1, n, o2);
      if nonoptStart != -1 && nonoptEnd == -1 { nonoptEnd := optind; }
      place := WordStart(nargv[optind]);
    }

    /** One option of the open word. */
    method TakeOption() returns (code: Option<int>)
      requires Valid() && place != ""
      modifies this
      ensures code.Some? ==> Valid()
      ensures code.Some? ==> optind > old(optind) || (optind == old(optind) && 0 < |place| < old(|place|))
      ensures code.Some? ==> old(Pending()) == [Event(code.value, optarg)] + Pending()
      ensures code.None? ==> GaveUp() && old(Pending()) == [] && optarg == None
    {
      hide Arranged, Read, ParseOption, ReadGroup, IsNonOption, Events, GroupEvents;
      ArrangedLength(nargv[..], orig, start, optind, o1, n, o2);
      ghost var was := optind;
      var r := ParseOption(cfg, nargv[..], optind, place);
      ParseOptionLocal(cfg, nargv[..], orig, optind, place);
      ReadGroupStep(cfg, orig, optind, place, o1 + o2, n);
      EventsStep(cfg, orig, optind, place);
      code, place, optind, optarg := r.code, r.place, r.optind, r.optarg;
      if code.Some? && place == "" {
        AppendOptions(was);
      }
    }

    lemma ToldPending()
      requires Valid()
      ensures optind <= |orig| && Told(cfg, orig, optind, place, Pending())
    {
      hide Arranged, Read, Marks, Told, Events, GroupEvents;
      if place != "" {
        GroupTold(cfg, orig, optind, place);
      } else {
        EventsTold(cfg, orig, optind);
      }
    }

    /** How much of the scan is left: words, and characters of the open word. */
    ghost function Left(): (nat, nat)
      reads this, nargv
    {
      (if optind < nargv.Length then nargv.Length - optind else 0,
       if place != "" then |place| else if optind < |orig| then |orig[optind]| + 1 else 0)
    }

    /** One call: the next option's code, or None at the end of the options. */
    method GetoptInternal() returns (code: Option<int>)
      requires Valid()
      modifies this, nargv
      ensures code.Some? ==> Valid()
      ensures code.Some? ==> Left().0 < old(Left().0) || (Left().0 == old(Left().0) && Left().1 < old(Left().1))
      ensures code.Some? ==> old(Pending()) == [Event(code.value, optarg)] + Pending()
      ensures code.None? ==> (Finished() || GaveUp()) && old(Pending()) == [] && optarg == None
    {
      hide Arranged, Read, ReadGroup, IsNonOption, Marks, After, Scanner.Pending;
      optarg := None;
      while place == ""
        invariant Valid() && optind <= nargv.Length && Pending() == old(Pending()) && optarg == None
        invariant Left().0 < old(Left().0) || (Left().0 == old(Left().0) && Left().1 <= old(Left().1))
        decreases nargv.Length - optind, place == ""
      {
        if optind >= nargv.Length {
          FinishVector();
          return None;
        }
        if IsNonOption(cfg, nargv[optind]) {
          PassNonOption();
        } else if nargv[optind] == "--" {
          FinishAtDashes();
          return None;
        } else {
          OpenWord();
        }
      }
      code := TakeOption();
    }

    /** The caller's loop: call until -1. The arguments end up with the options, their
        arguments and any `--` in front and the non-options behind, both in their original
        order, and `optind` at the first non-option, if and only if the scan never meets
        a word it gives up on. The options returned are those of the original vector. */
    method ScanAll() returns (events: seq<Event>)
      requires Valid()
      modifies this, nargv
      ensures Finished() || GaveUp()
      ensures Finished() <==> start <= |orig| && Read(cfg, orig, start).Reading?
      ensures events == old(Pending()) && old(optind) <= |orig| && Told(cfg, orig, old(optind), old(place), events)
    {
      hide Arranged, Read, Marks, Left, Scanner.Pending, Told;
      ToldPending();
      events := [];
      var code := Some(0);
      while code.Some?
        invariant if code.Some? then Valid() else Finished() || GaveUp()
        invariant old(Pending()) == events + if code.Some? then Pending() else []
        decreases code.Some?, Left().0, Left().1
      {
        ghost var pending := Pending();
        code := GetoptInternal();
        if code.Some? {
          assert events + pending == events + [Event(code.value, optarg)] + Pending();
          events := events + [Event(code.value, optarg)];
        }
      }
    }
  }

  // ----- facts about arrangements and readings ---------------------------------

  lemma ArrangedLength(now: seq<string>, orig: seq<string>, start: nat, optind: nat,
                       o1: seq<string>, n: seq<string>, o2: seq<string>)
    requires Arranged(now, orig, start, optind, o1, n, o2)
    ensures |now| == |orig| && start <= optind <= |orig| && optind == start + |o1| + |n| + |o2|
    ensures forall i :: optind <= i < |orig| ==> now[i] == orig[i]
  {
    forall i | optind <= i < |orig| ensures now[i] == orig[i] {
      assert now[optind..][i - optind] == orig[optind..][i - optind];
    }
  }

  /** With nothing left between, the arrangement is the final layout. */
  lemma FinalLayout(now: seq<string>, orig: seq<string>, start: nat, e: nat, o: seq<string>, n: seq<string>)
    requires Arranged(now, orig, start, e, o, n, [])
    ensures now == orig[..start] + o + (n + orig[e..])
  {
    assert now == now[..start] + now[start..e] + now[e..];
  }

  lemma ExtendNonOptions(now: seq<string>, orig: seq<string>, start: nat, optind: nat, o1: seq<string>, n: seq<string>)
    requires Arranged(now, orig, start, optind, o1, n, []) && optind < |orig|
    ensures Arranged(now, orig, start, optind + 1, o1, n + [orig[optind]], [])
  {
    var rest := orig[optind..];
    assert rest[0] == orig[optind] && now[optind..] == rest;
    assert now[optind] == rest[0];
    assert now[start..optind + 1] == now[start..optind] + [now[optind]];
    assert now[optind + 1..] == rest[1..];
    assert orig[optind + 1..] == rest[1..];
  }

  /** Option words just read join the options behind the pending non-options, or the
      leading options when there are none. */
  lemma ExtendOptions(now: seq<string>, orig: seq<string>, start: nat, optind: nat, e: nat,
                      o1: seq<string>, n: seq<string>, o2: seq<string>)
    requires Arranged(now, orig, start, optind, o1, n, o2) && optind <= e <= |orig|
    ensures Arranged(now, orig, start, e, o1, n, o2 + orig[optind..e])
    ensures n == [] && o2 == [] ==> Arranged(now, orig, start, e, o1 + orig[optind..e], [], [])
  {
    assert now[optind..e] == now[optind..][..e - optind] == orig[optind..][..e - optind] == orig[optind..e];
    assert now[start..e] == now[start..optind] + now[optind..e];
    assert now[e..] == now[optind..][e - optind..] == orig[optind..][e - optind..] == orig[e..];
  }

  lemma EventsPassed(cfg: Config, orig: seq<string>, i: nat)
    requires i < |orig| && IsNonOption(cfg, orig[i])
    ensures Events(cfg, orig, i) == Events(cfg, orig, i + 1)
  {
  }

  lemma DashesEnd(cfg: Config, orig: seq<string>, i: nat)
    requires i < |orig| && orig[i] == "--"
    ensures Events(cfg, orig, i) == []
  {
  }

  lemma EventsStep(cfg: Config, orig: seq<string>, i: nat, place: string)
    requires i < |orig| && place != ""
    ensures var r := ParseOption(cfg, orig, i, place);
            GroupEvents(cfg, orig, i, place) ==
              if r.code.None? then []
              else [Event(r.code.value, r.optarg)]
                   + if r.place == "" then Events(cfg, orig, r.optind) else GroupEvents(cfg, orig, i, r.place)
  {
  }

  lemma ReadEnd(cfg: Config, orig: seq<string>, o: seq<string>, n: seq<string>)
    ensures After(o, n, Read(cfg, orig, |orig|)) == Reading(o, n)
    ensures n + orig[|orig|..] == n
  {
  }

  lemma ReadNonOption(cfg: Config, orig: seq<string>, i: nat, o: seq<string>, n: seq<string>)
    requires i < |orig| && IsNonOption(cfg, orig[i])
    ensures After(o, n, Read(cfg, orig, i)) == After(o, n + [orig[i]], Read(cfg, orig, i + 1))
  {
    var r := Read(cfg, orig, i + 1);
    if r.Reading? { assert n + ([orig[i]] + r.nons) == n + [orig[i]] + r.nons; }
  }

  lemma ReadDashes(cfg: Config, orig: seq<string>, i: nat, o: seq<string>, n: seq<string>)
    requires i < |orig| && orig[i] == "--"
    ensures After(o, n, Read(cfg, orig, i)) == Reading(o + orig[i..i + 1], n + orig[i + 1..])
  {
    assert orig[i..i + 1] == ["--"];
  }

  lemma ReadGroupStep(cfg: Config, orig: seq<string>, i: nat, place: string, o: seq<string>, n: seq<string>)
    requires i < |orig| && place != ""
    ensures var r := ParseOption(cfg, orig, i, place);
            After(o, n, ReadGroup(cfg, orig, i, place)) ==
              if r.code.None? then Stuck
              else if r.place == "" then After(o + orig[i..r.optind], n, Read(cfg, orig, r.optind))
              else After(o, n, ReadGroup(cfg, orig, i, r.place))
  {
    var r := ParseOption(cfg, orig, i, place);
    if r.code.Some? && r.place == "" {
      var rest := Read(cfg, orig, r.optind);
      if rest.Reading? { assert o + (orig[i..r.optind] + rest.opts) == o + orig[i..r.optind] + rest.opts; }
    }
  }

  /** An option is parsed from the words that have not been touched yet. */
  lemma ParseOptionLocal(cfg: Config, now: seq<string>, orig: seq<string>, i: nat, place: string)
    requires i < |orig| == |now| && place != "" && forall j :: i <= j < |orig| ==> now[j] == orig[j]
    ensures ParseOption(cfg, now, i, place) == ParseOption(cfg, orig, i, place)
  {
    hide ParseLong;
    forall j: nat, p: string, b: bool | cfg.longOptions.Some? && i <= j < |orig|
      ensures ParseLong(cfg, now, j, p, b) == ParseLong(cfg, orig, j, p, b)
    {
      ParseLongLocal(cfg, now, orig, j, p, b);
    }
  }

  lemma ParseLongLocal(cfg: Config, now: seq<string>, orig: seq<string>, i: nat, place: string, shortToo: bool)
    requires cfg.longOptions.Some? && i < |orig| == |now| && forall j :: i <= j < |orig| ==> now[j] == orig[j]
    ensures ParseLong(cfg, now, i, place, shortToo) == ParseLong(cfg, orig, i, place, shortToo)
  {
    hide Search, IndexOf;
  }

  // ----- the reading is a stable partition -------------------------------------

  /** The elements of `s` whose mark is `b`, in order. */
  function Select<T>(s: seq<T>, marks: seq<bool>, b: bool): (r: seq<T>)
    requires |marks| == |s|
  {
    if s == [] then []
    else (if marks[0] == b then [s[0]] else []) + Select(s[1..], marks[1..], b)
  }

  lemma {:induction false} SelectAppend<T>(s: seq<T>, t: seq<T>, ms: seq<bool>, mt: seq<bool>, b: bool)
    requires |ms| == |s| && |mt| == |t|
    ensures Select(s + t, ms + mt, b) == Select(s, ms, b) + Select(t, mt, b)
  {
    if s == [] {
      assert s + t == t && ms + mt == mt;
    } else {
      SelectAppend(s[1..], t, ms[1..], mt, b);
      SelectCons(s[0], s[1..] + t, ms[0], ms[1..] + mt, b);
      assert s + t == [s[0]] + (s[1..] + t) && ms + mt == [ms[0]] + (ms[1..] + mt);
    }
  }

  lemma SelectCons<T>(x: T, s: seq<T>, m: bool, ms: seq<bool>, b: bool)
    requires |ms| == |s|
    ensures Select([x] + s, [m] + ms, b) == (if m == b then [x] else []) + Select(s, ms, b)
  {
    assert ([x] + s)[1..] == s && ([m] + ms)[1..] == ms;
  }

  lemma {:induction false} SelectUniform<T>(s: seq<T>, marks: seq<bool>, b: bool)
    requires |marks| == |s| && forall i :: 0 <= i < |s| ==> marks[i] == b
    ensures Select(s, marks, b) == s && Select(s, marks, !b) == []
  {
    if s != [] { SelectUniform(s[1..], marks[1..], b); }
  }

  lemma {:induction false} SelectPermutes<T>(s: seq<T>, marks: seq<bool>)
    requires |marks| == |s|
    ensures multiset(Select(s, marks, true)) + multiset(Select(s, marks, false)) == multiset(s)
  {
    if s != [] {
      SelectPermutes(s[1..], marks[1..]);
      var yes, no := Select(s[1..], marks[1..], true), Select(s[1..], marks[1..], false);
      assert s == [s[0]] + s[1..];
      if marks[0] {
        assert Select(s, marks, true) == [s[0]] + yes && Select(s, marks, false) == [] + no == no;
      } else {
        assert Select(s, marks, true) == [] + yes == yes && Select(s, marks, false) == [s[0]] + no;
      }
      hide Select;
    }
  }

  ghost function Uniform(n: nat, b: bool): (r: seq<bool>)
    ensures |r| == n && forall i :: 0 <= i < n ==> r[i] == b
  {
    seq(n, _ => b)
  }

  ghost predicate Partitions(r: Reading, s: seq<string>, marks: seq<bool>) {
    |marks| == |s| && r == Reading(Select(s, marks, true), Select(s, marks, false))
  }

  lemma PartitionNonOption(r: Reading, word: string, s: seq<string>, marks: seq<bool>)
    requires Partitions(r, s, marks)
    ensures Partitions(r.(nons := [word] + r.nons), [word] + s, [false] + marks)
  {
    SelectCons(word, s, false, marks, true);
    SelectCons(word, s, false, marks, false);
  }

  lemma PartitionOptions(r: Reading, words: seq<string>, s: seq<string>, marks: seq<bool>)
    requires Partitions(r, s, marks)
    ensures Partitions(r.(opts := words + r.opts), words + s, Uniform(|words|, true) + marks)
  {
    SelectUniform(words, Uniform(|words|, true), true);
    SelectAppend(words, s, Uniform(|words|, true), marks, true);
    SelectAppend(words, s, Uniform(|words|, true), marks, false);
  }

  /** The options and non-options of a reading are a stable partition of the words read:
      each keeps its original order. */
  lemma {:induction false} ReadIsStablePartition(cfg: Config, argv: seq<string>, i: nat) returns (marks: seq<bool>)
    requires i <= |argv| && Read(cfg, argv, i).Reading?
    ensures Partitions(Read(cfg, argv, i), argv[i..], marks)
    decreases |argv| - i
  {
    hide Partitions, IsNonOption, Select, GroupEnd, Read, WordStart;
    ReadCases(cfg, argv, i);
    if i == |argv| {
      marks := PartitionNothing();
      assert argv[i..] == [];
    } else if IsNonOption(cfg, argv[i]) {
      var rest := ReadIsStablePartition(cfg, argv, i + 1);
      marks := [false] + rest;
      PartitionNonOption(Read(cfg, argv, i + 1), argv[i], argv[i + 1..], rest);
      assert argv[i..] == [argv[i]] + argv[i + 1..];
    } else if argv[i] == "--" {
      var rest := PartitionRest(argv[i + 1..]);
      marks := Uniform(1, true) + rest;
      PartitionOptions(Reading([], argv[i + 1..]), ["--"], argv[i + 1..], rest);
      assert argv[i..] == ["--"] + argv[i + 1..];
    } else {
      var e := GroupEnd(cfg, argv, i, WordStart(argv[i])).value;
      var rest := ReadIsStablePartition(cfg, argv, e);
      marks := Uniform(e - i, true) + rest;
      PartitionOptions(Read(cfg, argv, e), argv[i..e], argv[e..], rest);
      assert argv[i..] == argv[i..e] + argv[e..];
    }
  }

  lemma ReadCases(cfg: Config, argv: seq<string>, i: nat)
    requires i <= |argv| && Read(cfg, argv, i).Reading?
    ensures var r := Read(cfg, argv, i);
            if i == |argv| then r == Reading([], [])
            else if IsNonOption(cfg, argv[i]) then
              var rest := Read(cfg, argv, i + 1); rest.Reading? && r == rest.(nons := [argv[i]] + rest.nons)
            else if argv[i] == "--" then r == Reading(["--"] + [], argv[i + 1..])
            else
              argv[i] != "" &&
              var e := GroupEnd(cfg, argv, i, WordStart(argv[i]));
              && e.Some? && Read(cfg, argv, e.value).Reading?
              && r == Read(cfg, argv, e.value).(opts := argv[i..e.value] + Read(cfg, argv, e.value).opts)
  {
    hide GroupEnd, IsNonOption;
  }

  lemma PartitionNothing() returns (marks: seq<bool>)
    ensures Partitions(Reading([], []), [], marks)
  {
    marks := [];
  }

  lemma PartitionRest(s: seq<string>) returns (marks: seq<bool>)
    ensures Partitions(Reading([], s), s, marks)
  {
    marks := Uniform(|s|, false);
    SelectUniform(s, marks, false);
  }

  /** The final layout is a permutation of the original arguments. */
  lemma LayoutIsPermutation(cfg: Config, orig: seq<string>, start: nat)
    requires start <= |orig| && Read(cfg, orig, start).Reading?
    ensures var r := Read(cfg, orig, start); multiset(orig[..start] + r.opts + r.nons) == multiset(orig)
  {
    var marks := ReadIsStablePartition(cfg, orig, start);
    SelectPermutes(orig[start..], marks);
    assert orig == orig[..start] + orig[start..];
  }

  // ----- where the scanner gives up --------------------------------------------

  predicate TakesArgument(cfg: Config, c: char) {
    c != ':' && c != '-' && c in cfg.options && CharAt(cfg.options, IndexOf(cfg.options, c) + 1, ':')
  }

  /** The words the scanner gives up on, when there is no long-option table and `-` is no
      option letter: they end in a dash that no earlier letter takes as its argument. */
  predicate GivesUpOn(cfg: Config, place: string) {
    && cfg.longOptions.None? && '-' !in cfg.options
    && place != "" && place[|place| - 1] == '-'
    && forall k :: 0 <= k < |place| - 1 ==> !TakesArgument(cfg, place[k])
  }

  lemma {:induction false} GroupGivesUp(cfg: Config, argv: seq<string>, i: nat, place: string)
    requires i < |argv| && place != "" && |place| <= |argv[i]|
    requires |place| == |argv[i]| ==> '-' in cfg.options
    ensures GroupEnd(cfg, argv, i, place).None? <==> GivesUpOn(cfg, place)
    decreases |place|
  {
    hide ParseLong, IndexOf;
    var r := ParseOption(cfg, argv, i, place);
    if r.place != "" {
      PlaceIsRest(cfg, argv, i, place);
      GroupGivesUp(cfg, argv, i, r.place);
      GivesUpRest(cfg, place);
    }
  }

  lemma PlaceIsRest(cfg: Config, argv: seq<string>, i: nat, place: string)
    requires i < |argv| && place != "" && ParseOption(cfg, argv, i, place).place != ""
    ensures ParseOption(cfg, argv, i, place).place == place[1..] && ParseOption(cfg, argv, i, place).code.Some?
    ensures cfg.longOptions.None? ==> !TakesArgument(cfg, place[0])
  {
    hide ParseLong, IndexOf;
  }

  lemma GivesUpRest(cfg: Config, place: string)
    requires |place| > 1
    ensures GivesUpOn(cfg, place) <==> GivesUpOn(cfg, place[1..]) && !TakesArgument(cfg, place[0])
  {
    hide IndexOf;
    assert forall k :: 0 <= k < |place| - 2 ==> place[1..][k] == place[k + 1];
    if GivesUpOn(cfg, place[1..]) && !TakesArgument(cfg, place[0]) {
      forall k | 0 <= k < |place| - 1 ensures !TakesArgument(cfg, place[k]) {
        if k > 0 { assert place[k] == place[1..][k - 1]; }
      }
    }
  }

  /** An option word of the reading from `i` on starts at `j`. */
  predicate MeetsWord(cfg: Config, argv: seq<string>, i: nat, j: nat): (m: bool)
    requires i <= |argv|
    ensures m ==> i <= j < |argv| && argv[j] != ""
    decreases |argv| - i
  {
    if i == |argv| then false
    else if IsNonOption(cfg, argv[i]) then MeetsWord(cfg, argv, i + 1, j)
    else if argv[i] == "--" then false
    else
      var e := GroupEnd(cfg, argv, i, WordStart(argv[i]));
      j == i || (e.Some? && MeetsWord(cfg, argv, e.value, j))
  }

  /** A word the reading meets and gives up on. */
  predicate GivesUpAt(cfg: Config, argv: seq<string>, i: nat, j: nat)
    requires i <= |argv|
  {
    MeetsWord(cfg, argv, i, j) && GivesUpOn(cfg, WordStart(argv[j]))
  }

  /** The scan finishes exactly if the reading meets no word that is given up on; so it
      always does without such a word among the arguments, in particular with a long-option
      table or with `-` an option letter. */
  lemma {:induction false} ReadFinishes(cfg: Config, argv: seq<string>, i: nat)
    requires i <= |argv|
    ensures Read(cfg, argv, i).Reading? <==> forall j :: i <= j < |argv| ==> !GivesUpAt(cfg, argv, i, j)
    ensures (forall j :: i <= j < |argv| && argv[j] != "" ==> !GivesUpOn(cfg, WordStart(argv[j]))) ==>
              Read(cfg, argv, i).Reading?
    decreases |argv| - i
  {
    hide GivesUpOn;
    if i < |argv| && argv[i] != "--" {
      if IsNonOption(cfg, argv[i]) {
        ReadFinishes(cfg, argv, i + 1);
        var e := i + 1;
        assert forall j :: i <= j < |argv| ==> (GivesUpAt(cfg, argv, i, j) <==> e <= j && GivesUpAt(cfg, argv, e, j));
      } else {
        var p := WordStart(argv[i]);
        GroupGivesUp(cfg, argv, i, p);
        if GivesUpOn(cfg, p) {
          assert GivesUpAt(cfg, argv, i, i);
        } else {
          var e := GroupEnd(cfg, argv, i, p).value;
          ReadFinishes(cfg, argv, e);
          assert forall j :: i < j < |argv| ==> (GivesUpAt(cfg, argv, i, j) <==> e <= j && GivesUpAt(cfg, argv, e, j));
        }
      }
    }
  }

  /** The scan as the source runs it fails on this input: the `x` is never moved behind
      the option word. */
  lemma GivesUp()
    ensures Read(Config("a", None, false), ["prog", "x", "-a-"], 1) == Stuck
  {
    var cfg, argv := Config("a", None, false), ["prog", "x", "-a-"];
    assert WordStart(argv[2]) == "a-";
    GroupGivesUp(cfg, argv, 2, "a-");
    assert Read(cfg, argv, 2) == Stuck;
  }
}
