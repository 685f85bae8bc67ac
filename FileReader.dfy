/** The record-oriented parser of the zoo catalog files: the listing of record names, the
    lookup of a record's detail block and the warning alerts raised for marked detail lines.
    A catalog file is the sequence of its lines; what the source prints is returned as
    values: printed lines, and the (title, message) pairs of the warning dialogs. */
module FileReader {
  import opened Wrappers
  import opened Seqs
  import opened JavaString
  import opened Scanning

  /** The two resource paths the configuration file supplies. */
  datatype Config = Config(animalsFilePath: string, habitatsFilePath: string)

  /** The catalog consulted for a kind of record (the source's `type`): the animals file for "animals",
      the habitats file for every other kind. */
  function GetFilePath(config: Config, kind: string): (path: string)
    ensures kind == "animals" ==> path == config.animalsFilePath
    ensures kind != "animals" ==> path == config.habitatsFilePath
  {
    if kind == "animals" then config.animalsFilePath else config.habitatsFilePath
  }

  // ---------------------------------------------------------------------------------------
  // Query normalisation

  /** Proper case: no lower-case first letter and no upper-case letter after it. */
  predicate IsProperCase(s: string) {
    |s| > 0 && !IsAsciiLower(s[0]) && forall i :: 1 <= i < |s| ==> !IsAsciiUpper(s[i])
  }

  /** `formatInput` (and `capitalize`, which has the same body): the first character upper-cased,
      the rest lower-cased. The source fails on an empty string. */
  function FormatInput(input: string): (r: string)
    requires |input| > 0
    ensures |r| == |input|
    ensures IsProperCase(r)
    ensures EqualIgnoringCase(r, input)
  {
    ToUpperCase(input[..1]) + ToLowerCase(input[1..])
  }

  /** The proper-case spelling of a string is unique. */
  lemma ProperCaseUnique(t: string, input: string)
    requires |input| > 0
    requires IsProperCase(t) && EqualIgnoringCase(t, input)
    ensures t == FormatInput(input)
  {
    var r := FormatInput(input);
    forall i | 0 <= i < |t|
      ensures t[i] == r[i]
    {
      assert SameIgnoringCase(t[i], r[i]);
    }
  }

  /** Normalising twice is normalising once. */
  lemma FormatInputIdempotent(input: string)
    requires |input| > 0
    ensures FormatInput(FormatInput(input)) == FormatInput(input)
  {
    var r := FormatInput(input);
    ProperCaseUnique(r, r);
  }

  /** Two queries normalise alike exactly when they differ only in the case of their letters. */
  lemma {:induction false} FormatInputIgnoresCase(a: string, b: string)
    requires |a| > 0 && |b| > 0
    ensures FormatInput(a) == FormatInput(b) <==> EqualIgnoringCase(a, b)
  {
    var fa, fb := FormatInput(a), FormatInput(b);
    if EqualIgnoringCase(a, b) {
      assert EqualIgnoringCase(fa, b) by {
        forall i | 0 <= i < |fa| ensures SameIgnoringCase(fa[i], b[i]) {
          assert SameIgnoringCase(fa[i], a[i]) && SameIgnoringCase(a[i], b[i]);
        }
      }
      ProperCaseUnique(fa, b);
    }
    if fa == fb {
      forall i | 0 <= i < |a| ensures SameIgnoringCase(a[i], b[i]) {
        assert SameIgnoringCase(fa[i], a[i]) && SameIgnoringCase(fb[i], b[i]);
      }
    }
  }

  // ---------------------------------------------------------------------------------------
  // Name listing

  /** A line that introduces a record in the listing: it starts with "Details". */
  predicate IsHeader(line: string) { StartsWith(line, "Details") }

  /** A token `extractName` does not skip. */
  predicate IsNameWord(word: string) { word != "Details" && word != "on" }

  /** The name a token yields: for "animals" the token without its last character, otherwise
      the token itself. */
  function NameFromWord(word: string, kind: string): (name: string)
    requires |word| > 0
    ensures kind == "animals" ==> |name| == |word| - 1 && word == name + [word[|word| - 1]]
    ensures kind != "animals" ==> name == word
  {
    if kind == "animals" then word[..|word| - 1] else word
  }

  /** The name `extractName` derives from a line: from its first token that is neither "Details"
      nor "on", or "" when there is no such token. */
  function ExtractedName(line: string, kind: string): (name: string)
  {
    var words := Tokens(line);
    match FirstIndex(words, IsNameWord)
    case None => ""
    case Some(k) => NameFromWord(words[k], kind)
  }

  /** The first token that is not skipped gives the name. */
  lemma ExtractedNameAt(line: string, kind: string, k: nat)
    requires k < |Tokens(line)| && IsNameWord(Tokens(line)[k])
    requires forall j :: 0 <= j < k ==> !IsNameWord(Tokens(line)[j])
    ensures ExtractedName(line, kind) == NameFromWord(Tokens(line)[k], kind)
  {
    FirstIndexAt(Tokens(line), IsNameWord, k);
  }

  /** A line made only of skipped tokens gives the empty name. */
  lemma ExtractedNameNone(line: string, kind: string)
    requires forall j :: 0 <= j < |Tokens(line)| ==> !IsNameWord(Tokens(line)[j])
    ensures ExtractedName(line, kind) == ""
  {
  }

  /** `extractName`: reads tokens until one is neither "Details" nor "on". */
  method ExtractName(line: string, kind: string) returns (name: string)
    ensures name == ExtractedName(line, kind)
  {
    var words := Tokens(line);
    name := "";
    var i := 0;
    while i < |words|
      invariant 0 <= i <= |words|
      invariant forall j :: 0 <= j < i ==> !IsNameWord(words[j])
      invariant name == ""
    {
      var word := words[i];
      if word != "Details" && word != "on" {
        name := if kind == "animals" then word[..|word| - 1] else word;
        ExtractedNameAt(line, kind, i);
        return;
      }
      i := i + 1;
    }
  }

  /** `getAvailableList`: one name per line that starts with "Details", in file order, each the
      name `extractName` derives from that line. */
  method GetAvailableList(lines: seq<string>, kind: string) returns (availableList: seq<string>)
    ensures |availableList| == |Positions(lines, IsHeader)|
    ensures forall m :: 0 <= m < |availableList| ==>
      availableList[m] == ExtractedName(lines[Positions(lines, IsHeader)[m]], kind)
  {
    availableList := [];
    var i := 0;
    while i < |lines|
      invariant 0 <= i <= |lines|
      invariant |availableList| == |Positions(lines[..i], IsHeader)|
      invariant forall m :: 0 <= m < |availableList| ==>
        availableList[m] == ExtractedName(lines[Positions(lines[..i], IsHeader)[m]], kind)
    {
      var line := lines[i];
      assert lines[..i + 1][..i] == lines[..i];
      if StartsWith(line, "Details") {
        var name := ExtractName(line, kind);
        availableList := availableList + [name];
      }
      i := i + 1;
    }
    assert lines[..i] == lines;
  }

  // ---------------------------------------------------------------------------------------
  // Warning lines

  /** The (title, message) pair of one warning dialog. */
  datatype Alert = Alert(title: string, message: string)

  /** A detail line that raises a warning: it starts with "*". */
  predicate IsWarningLine(line: string) { StartsWith(line, "*") }

  /** The text of a warning line once every "*" is a space and the ends are trimmed. */
  function WarningText(line: string): (text: string)
  {
    Trim(Replace(line, '*', ' '))
  }

  /** `displayWarning`: the category is the text before the first colon, the message the text
      from two characters after it, the title "Warning! " followed by the category. `None` where
      the source's `substring` fails: no colon, or nothing after the colon. */
  function ParseWarning(line: string): (alert: Option<Alert>)
  {
    var text := WarningText(line);
    match IndexOf(text, ':')
    case None => None
    case Some(colon) =>
      if colon + 2 <= |text| then Some(Alert("Warning! " + text[..colon], text[colon + 2..]))
      else None
  }

  /** A warning line whose text is a colon-free category, a colon, one separator character and
      a message yields exactly that category and message. */
  lemma WarningDecomposes(line: string, category: string, sep: char, message: string)
    requires ':' !in category
    requires WarningText(line) == category + ":" + [sep] + message
    ensures ParseWarning(line) == Some(Alert("Warning! " + category, message))
  {
    var text := WarningText(line);
    assert text == category + [':'] + ([sep] + message);
    IndexOfAfter(category, ':', [sep] + message);
    assert text[..|category|] == category;
    assert text[|category| + 2..] == message;
  }

  /** Every parsed warning arises that way, and a parse fails exactly when no colon of the text
      has a character after it. */
  lemma ParseWarningComposes(line: string)
    ensures ParseWarning(line).None? <==>
      forall i :: 0 <= i < |WarningText(line)| - 1 ==> WarningText(line)[i] != ':'
    ensures ParseWarning(line).Some? ==> exists category: string, sep: char ::
      ':' !in category &&
      ParseWarning(line).value.title == "Warning! " + category &&
      WarningText(line) == category + ":" + [sep] + ParseWarning(line).value.message
  {
    var text := WarningText(line);
    IndexOfFirst(text, ':');
    match IndexOf(text, ':')
    case None =>
    case Some(colon) =>
      if colon + 2 <= |text| {
        var category, sep, message := text[..colon], text[colon + 1], text[colon + 2..];
        assert text == category + ":" + [sep] + message;
      } else {
        assert forall i :: 0 <= i < |text| - 1 ==> i < colon && text[..colon][i] == text[i];
      }
  }

  /** A warning as the catalogs write it: one or more stars, a category, a colon and a space,
      the message, and optionally closing stars. */
  lemma StarredWarning(lead: nat, category: string, message: string, trail: nat)
    requires lead > 0
    requires |category| > 0 && !IsTrimmable(category[0]) && ':' !in category && '*' !in category
    requires |message| > 0 && !IsTrimmable(message[|message| - 1]) && '*' !in message
    ensures ParseWarning(Repeat('*', lead) + category + ": " + message + Repeat('*', trail)) ==
      Some(Alert("Warning! " + category, message))
  {
    var line := Repeat('*', lead) + category + ": " + message + Repeat('*', trail);
    var body := category + ": " + message;
    assert line == Repeat('*', lead) + body + Repeat('*', trail);
    ReplaceEach(line, '*', ' ');
    assert Replace(line, '*', ' ') == Repeat(' ', lead) + body + Repeat(' ', trail);
    TrimPadded(body, lead, trail);
    assert body == category + ":" + [' '] + message;
    WarningDecomposes(line, category, ' ', message);
  }

  /** The example "*Health: Needs checkup*" gives the dialog titled "Warning! Health" with the
      message "Needs checkup". */
  lemma HealthWarning()
    ensures ParseWarning("*Health: Needs checkup*") == Some(Alert("Warning! Health", "Needs checkup"))
  {
    var category, message := "Health", "Needs checkup";
    assert Repeat('*', 1) + category + ": " + message + Repeat('*', 1) == "*Health: Needs checkup*";
    assert "Warning! " + category == "Warning! Health";
    StarredWarning(1, category, message, 1);
  }

  /** A warning line on which the source's `displayWarning` fails. */
  predicate IsMalformedWarning(line: string) {
    IsWarningLine(line) && ParseWarning(line).None?
  }

  /** The alert a well-formed detail line raises: one for a warning line, none otherwise. */
  function AlertOf(line: string): (alerts: seq<Alert>)
    requires !IsMalformedWarning(line)
  {
    if IsWarningLine(line) then [ParseWarning(line).value] else []
  }

  /** The alerts of a run of detail lines without malformed warning lines. */
  function Warnings(block: seq<string>): (alerts: seq<Alert>)
    requires forall i :: 0 <= i < |block| ==> !IsMalformedWarning(block[i])
  {
    if block == [] then []
    else
      var init := Warnings(block[..|block| - 1]);
      var last := block[|block| - 1];
      assert !IsMalformedWarning(last);
      init + AlertOf(last)
  }

  /** One alert per warning line, in the order of the lines. */
  lemma {:induction false} WarningsInOrder(block: seq<string>)
    requires forall i :: 0 <= i < |block| ==> !IsMalformedWarning(block[i])
    ensures |Warnings(block)| == |Positions(block, IsWarningLine)|
    ensures forall m :: 0 <= m < |Warnings(block)| ==>
      Some(Warnings(block)[m]) == ParseWarning(block[Positions(block, IsWarningLine)[m]])
  {
    if block != [] {
      var init := block[..|block| - 1];
      var last := block[|block| - 1];
      assert forall i :: 0 <= i < |init| ==> init[i] == block[i];
      WarningsInOrder(init);
      var ws, ps := Warnings(init), Positions(init, IsWarningLine);
      assert Positions(block, IsWarningLine) == if IsWarningLine(last) then ps + [|init|] else ps;
      assert Warnings(block) == ws + AlertOf(last);
      forall m | 0 <= m < |ws|
        ensures Some(Warnings(block)[m]) == ParseWarning(block[Positions(block, IsWarningLine)[m]])
      {
        assert Some(ws[m]) == ParseWarning(init[ps[m]]);
        assert init[ps[m]] == block[ps[m]];
      }
    }
  }

  /** A block without warning lines raises no alert. */
  lemma NoWarningLinesNoAlerts(block: seq<string>)
    requires forall i :: 0 <= i < |block| ==> !IsWarningLine(block[i])
    ensures Warnings(block) == []
  {
    WarningsInOrder(block);
    PositionsEmpty(block, IsWarningLine);
  }

  // ---------------------------------------------------------------------------------------
  // Detail lookup

  /** What `printSubDetails` does: the lines it prints, the alerts it raises, and the malformed
      warning line it stops at, if any. */
  datatype SubDetails = SubDetails(printed: seq<string>, alerts: seq<Alert>, fault: Option<string>)

  /** The reference behaviour of `printSubDetails` once line `i` is next: it stops at the end of
      the file or at an exactly empty line, fails at a malformed warning line, and otherwise
      raises that line's alert, prints it and goes on. */
  function SubDetailsFrom(lines: seq<string>, i: nat): (r: SubDetails)
    requires i <= |lines|
    decreases |lines| - i
  {
    if i == |lines| || lines[i] == "" then SubDetails([], [], None)
    else if IsMalformedWarning(lines[i]) then SubDetails([], [], Some(lines[i]))
    else
      var rest := SubDetailsFrom(lines, i + 1);
      SubDetails([lines[i]] + rest.printed, AlertOf(lines[i]) + rest.alerts, rest.fault)
  }

  /** Warnings of a line followed by more lines. */
  lemma {:induction false} WarningsCons(line: string, block: seq<string>)
    requires !IsMalformedWarning(line)
    requires forall i :: 0 <= i < |block| ==> !IsMalformedWarning(block[i])
    ensures Warnings([line] + block) == AlertOf(line) + Warnings(block)
  {
    var s := [line] + block;
    if block != [] {
      var init := block[..|block| - 1];
      assert s[..|s| - 1] == [line] + init;
      WarningsCons(line, init);
    }
  }

  /** With no malformed warning line before the end of the block, everything up to it is
      printed and raises its alerts. */
  lemma {:induction false} SubDetailsRunsTo(lines: seq<string>, start: nat, end: nat)
    requires start <= end <= |lines|
    requires forall j :: start <= j < end ==> lines[j] != "" && !IsMalformedWarning(lines[j])
    requires end < |lines| ==> lines[end] == ""
    ensures SubDetailsFrom(lines, start) ==
      SubDetails(lines[start..end], Warnings(lines[start..end]), None)
    decreases end - start
  {
    if start < end {
      SubDetailsRunsTo(lines, start + 1, end);
      SliceCons(lines, start, end);
      WarningsCons(lines[start], lines[start + 1..end]);
    }
  }

  /** A malformed warning line at `bad` inside the block stops the block there. */
  lemma {:induction false} SubDetailsStopsAt(lines: seq<string>, start: nat, bad: nat)
    requires start <= bad < |lines|
    requires forall j :: start <= j < bad ==> lines[j] != "" && !IsMalformedWarning(lines[j])
    requires IsMalformedWarning(lines[bad])
    ensures SubDetailsFrom(lines, start) ==
      SubDetails(lines[start..bad], Warnings(lines[start..bad]), Some(lines[bad]))
    decreases bad - start
  {
    if start < bad {
      SubDetailsStopsAt(lines, start + 1, bad);
      SliceCons(lines, start, bad);
      WarningsCons(lines[start], lines[start + 1..bad]);
    } else {
      assert lines[bad] != "";
    }
  }

  /** `printSubDetails` (with `displayWarning`): consumes lines until an exactly empty one or the
      end of the file, raising an alert before printing each line that starts with "*". A
      warning line that does not parse stops it before that line is printed. */
  method PrintSubDetails(lines: seq<string>, start: nat) returns (r: SubDetails)
    requires start <= |lines|
    ensures r == SubDetailsFrom(lines, start)
  {
    var printed: seq<string> := [];
    var alerts: seq<Alert> := [];
    var i := start;
    while i < |lines|
      invariant start <= i <= |lines|
      invariant SubDetailsFrom(lines, start) == SubDetails(
        printed + SubDetailsFrom(lines, i).printed,
        alerts + SubDetailsFrom(lines, i).alerts,
        SubDetailsFrom(lines, i).fault)
    {
      var subLine := lines[i];
      if subLine == "" {
        break;
      }
      ghost var rest := SubDetailsFrom(lines, i + 1);
      if StartsWith(subLine, "*") {
        match ParseWarning(subLine)
        case None =>
          return SubDetails(printed, alerts, Some(subLine));
        case Some(alert) =>
          alerts := alerts + [alert];
      }
      assert printed + ([subLine] + rest.printed) == (printed + [subLine]) + rest.printed;
      printed := printed + [subLine];
      i := i + 1;
    }
    r := SubDetails(printed, alerts, None);
  }

  /** The outcome of a lookup: the detail block (the matched line and the lines after it), no
      matching line, or the malformed warning line at which the source fails. */
  datatype Outcome = Found(block: seq<string>) | NotFound | MalformedWarning(line: string)

  /** Everything a lookup produces: the printed lines, the dialogs in order, the outcome. */
  datatype Report = Report(output: seq<string>, alerts: seq<Alert>, outcome: Outcome)

  /** The heading `printDetails` prints, e.g. "Lion Animals Details:". */
  function Heading(formattedName: string, kind: string): (heading: string)
    requires |kind| > 0
  {
    formattedName + " " + FormatInput(kind) + " Details:"
  }

  function NotFoundMessage(formattedName: string): (message: string) {
    "Error: " + formattedName + " not found in system."
  }

  /** The outcome once the line `matched` has been printed and `printSubDetails` has run. */
  function BlockOutcome(matched: string, sub: SubDetails): (outcome: Outcome) {
    match sub.fault
    case None => Found([matched] + sub.printed)
    case Some(bad) => MalformedWarning(bad)
  }

  /** What `printDetails` prints after its heading when line `i` is next: the first line from
      `i` on that ends with the name, with its detail lines, or the not-found message. */
  function LookupFrom(lines: seq<string>, formattedName: string, i: nat): (r: Report)
    requires i <= |lines|
    decreases |lines| - i
  {
    if i == |lines| then Report([NotFoundMessage(formattedName)], [], NotFound)
    else if EndsWith(lines[i], formattedName) then
      var sub := SubDetailsFrom(lines, i + 1);
      Report([lines[i]] + sub.printed, sub.alerts, BlockOutcome(lines[i], sub))
    else LookupFrom(lines, formattedName, i + 1)
  }

  /** The reference behaviour of `printDetails`: the heading and a blank line, then the lookup
      of the normalised query over the whole file. */
  function Details(lines: seq<string>, kind: string, menuOption: string): (r: Report)
    requires |kind| > 0 && |menuOption| > 0
  {
    var formattedName := FormatInput(menuOption);
    var found := LookupFrom(lines, formattedName, 0);
    Report([Heading(formattedName, kind), ""] + found.output, found.alerts, found.outcome)
  }

  /** `printDetails`: prints the heading, then the first line ending with the normalised query
      and its detail lines, or the not-found message. */
  method PrintDetails(lines: seq<string>, kind: string, menuOption: string) returns (r: Report)
    requires |kind| > 0 && |menuOption| > 0
    ensures r == Details(lines, kind, menuOption)
  {
    var formattedName := FormatInput(menuOption);
    var heading := [Heading(formattedName, kind), ""];
    var output := heading;
    var alerts: seq<Alert> := [];
    var outcome := NotFound;
    var found := false;
    var i := 0;
    while i < |lines|
      invariant 0 <= i <= |lines|
      invariant !found && output == heading
      invariant LookupFrom(lines, formattedName, 0) == LookupFrom(lines, formattedName, i)
    {
      var line := lines[i];
      i := i + 1;
      if EndsWith(line, formattedName) {
        output := output + [line];
        found := true;
        var sub := PrintSubDetails(lines, i);
        output := output + sub.printed;
        alerts := sub.alerts;
        outcome := BlockOutcome(line, sub);
        assert output == heading + ([line] + sub.printed);
        break;
      }
    }
    if !found {
      output := output + [NotFoundMessage(formattedName)];
    }
    r := Report(output, alerts, outcome);
  }

  /** Lines that do not end with the name are passed over. */
  lemma {:induction false} LookupSkips(lines: seq<string>, formattedName: string, i: nat, k: nat)
    requires i <= k <= |lines|
    requires forall j :: i <= j < k ==> !EndsWith(lines[j], formattedName)
    ensures LookupFrom(lines, formattedName, i) == LookupFrom(lines, formattedName, k)
    decreases k - i
  {
    if i < k {
      LookupSkips(lines, formattedName, i + 1, k);
    }
  }

  /** The lookup from line `i` reports not-found exactly when no line from `i` on ends with the
      name; it then prints only the not-found message and raises no alert. */
  lemma {:induction false} LookupNotFound(lines: seq<string>, formattedName: string, i: nat)
    requires i <= |lines|
    ensures LookupFrom(lines, formattedName, i).outcome.NotFound? <==>
      forall j :: i <= j < |lines| ==> !EndsWith(lines[j], formattedName)
    ensures LookupFrom(lines, formattedName, i).outcome.NotFound? ==>
      LookupFrom(lines, formattedName, i) == Report([NotFoundMessage(formattedName)], [], NotFound)
    decreases |lines| - i
  {
    if i < |lines| && !EndsWith(lines[i], formattedName) {
      LookupNotFound(lines, formattedName, i + 1);
    }
  }

  /** When the first line ending with the name is `k` and its detail lines run to `end` without a
      malformed warning line, the lookup prints lines `k` to `end`, raises their alerts and
      finds that block. */
  lemma LookupFound(lines: seq<string>, formattedName: string, k: nat, end: nat)
    requires k < end <= |lines|
    requires forall j :: 0 <= j < k ==> !EndsWith(lines[j], formattedName)
    requires EndsWith(lines[k], formattedName)
    requires forall j :: k < j < end ==> lines[j] != "" && !IsMalformedWarning(lines[j])
    requires end < |lines| ==> lines[end] == ""
    ensures LookupFrom(lines, formattedName, 0) ==
      Report(lines[k..end], Warnings(lines[k + 1..end]), Found(lines[k..end]))
  {
    LookupSkips(lines, formattedName, 0, k);
    SubDetailsRunsTo(lines, k + 1, end);
    SliceCons(lines, k, end);
  }

  /** When a malformed warning line `bad` comes before the end of the matched block, the lookup
      prints the lines before it, raises their alerts, and fails at that line. */
  lemma LookupStopsAtMalformed(lines: seq<string>, formattedName: string, k: nat, bad: nat)
    requires k < bad < |lines|
    requires forall j :: 0 <= j < k ==> !EndsWith(lines[j], formattedName)
    requires EndsWith(lines[k], formattedName)
    requires forall j :: k < j < bad ==> lines[j] != "" && !IsMalformedWarning(lines[j])
    requires IsMalformedWarning(lines[bad])
    ensures LookupFrom(lines, formattedName, 0) ==
      Report(lines[k..bad], Warnings(lines[k + 1..bad]), MalformedWarning(lines[bad]))
  {
    LookupSkips(lines, formattedName, 0, k);
    SubDetailsStopsAt(lines, k + 1, bad);
    SliceCons(lines, k, bad);
  }

  /** Queries that differ only in the case of their letters give the same lookup. */
  lemma DetailsIgnoresQueryCase(lines: seq<string>, kind: string, a: string, b: string)
    requires |kind| > 0 && |a| > 0 && |b| > 0
    requires EqualIgnoringCase(a, b)
    ensures Details(lines, kind, a) == Details(lines, kind, b)
  {
    FormatInputIgnoresCase(a, b);
  }

  /** "LION", "lion" and "Lion" all normalise to "Lion", so they look up the same record in
      any catalog. */
  lemma LionQueriesAgree(lines: seq<string>, kind: string)
    requires |kind| > 0
    ensures FormatInput("LION") == FormatInput("lion") == FormatInput("Lion") == "Lion"
    ensures Details(lines, kind, "LION") == Details(lines, kind, "lion") == Details(lines, kind, "Lion")
  {
    assert EqualIgnoringCase("Lion", "LION") && EqualIgnoringCase("Lion", "lion");
    ProperCaseUnique("Lion", "LION");
    ProperCaseUnique("Lion", "lion");
    ProperCaseUnique("Lion", "Lion");
  }

  /** A header written "Details on <name> ..." lists the name that its third token gives. */
  lemma {:induction false} DetailsOnName(name: string, more: seq<string>, kind: string)
    requires IsWord(name) && IsNameWord(name)
    requires forall k :: 0 <= k < |more| ==> IsWord(more[k])
    ensures ExtractedName(JoinWords(["Details", "on", name] + more), kind) == NameFromWord(name, kind)
  {
    var words := ["Details", "on", name] + more;
    assert "Details"[0] == 'D' && "on"[0] == 'o';
    TokensOfJoinWords(words);
    ExtractedNameAt(JoinWords(words), kind, 2);
  }

  /** The same for a header whose words are separated by any runs of white space, such as
      tabs or several spaces. */
  lemma DetailsOnNameSpaced(ws1: string, ws2: string, name: string, rest: string, kind: string)
    requires |ws1| > 0 && forall i :: 0 <= i < |ws1| ==> IsWhitespace(ws1[i])
    requires |ws2| > 0 && forall i :: 0 <= i < |ws2| ==> IsWhitespace(ws2[i])
    requires IsWord(name) && IsNameWord(name)
    requires rest == [] || IsWhitespace(rest[0])
    ensures ExtractedName("Details" + ws1 + ("on" + ws2 + (name + rest)), kind) == NameFromWord(name, kind)
  {
    var line := "Details" + ws1 + ("on" + ws2 + (name + rest));
    assert "Details"[0] == 'D' && "on"[0] == 'o';
    TokensOfThreeWords("Details", ws1, "on", ws2, name, rest);
    ExtractedNameAt(line, kind, 2);
  }

  /** In the animals catalog the listed name drops the last character of the token after
      "Details on": the header "Details on lions" lists "lion". */
  lemma AnimalNameExample()
    ensures ExtractedName(JoinWords(["Details", "on", "lions"]), "animals") == "lion"
  {
    assert ["Details", "on", "lions"] + [] == ["Details", "on", "lions"];
    DetailsOnName("lions", [], "animals");
  }

  /** In the habitats catalog the listed name is the token after "Details on" itself: the header
      "Details on penguin habitat" lists "penguin". */
  lemma HabitatNameExample()
    ensures ExtractedName(JoinWords(["Details", "on", "penguin", "habitat"]), "habitats") == "penguin"
  {
    assert ["Details", "on", "penguin"] + ["habitat"] == ["Details", "on", "penguin", "habitat"];
    DetailsOnName("penguin", ["habitat"], "habitats");
  }

  /** A line whose first token begins with "Details" but is longer is a header, and that token
      is the name it lists. */
  lemma {:induction false} DetailsPrefixName(word: string, more: seq<string>, kind: string)
    requires IsWord(word) && IsNameWord(word) && StartsWith(word, "Details")
    requires forall k :: 0 <= k < |more| ==> IsWord(more[k])
    ensures IsHeader(JoinWords([word] + more))
    ensures ExtractedName(JoinWords([word] + more), kind) == NameFromWord(word, kind)
  {
    var words := [word] + more;
    TokensOfJoinWords(words);
    ExtractedNameAt(JoinWords(words), kind, 0);
    if more != [] {
      assert JoinWords(words) == word + (" " + JoinWords(more));
    }
  }

  /** The line "DetailsOf lions" is a header, listed under the name "DetailsOf". */
  lemma HeaderPrefixExample()
    ensures IsHeader(JoinWords(["DetailsOf", "lions"]))
    ensures ExtractedName(JoinWords(["DetailsOf", "lions"]), "habitats") == "DetailsOf"
  {
    assert ["DetailsOf"] + ["lions"] == ["DetailsOf", "lions"];
    DetailsPrefixName("DetailsOf", ["lions"], "habitats");
  }
}
