/** Command lines that are written in any way, and the options that the scan finds in them (getopt.c). */
module GetoptLayout {
  import opened Wrappers
  import opened Getopt

  // ----- the option string -----

  // An option with no colon, one or two behind it takes no argument, one, or one in its own element only.
  lemma Declared(before: string, c: char, colons: string, after: string)
    requires c != ':' && c !in before && (colons == "" || colons == ":" || colons == "::")
    requires |colons| < 2 ==> after == "" || after[0] != ':'
    ensures KindOf(before + [c] + colons + after, c)
            == if colons == "" then NoArgument else if colons == ":" then RequiredArgument else OptionalArgument
  {
    var s := before + [c] + colons + after;
    assert s[|before|] == c && forall k :: 0 <= k < |before| ==> s[k] == before[k] && before[k] in before;
    var i := IndexOf(s, c);
    assert i == |before|;
    if |colons| >= 1 { assert s[i + 1] == colons[0]; } else if after != "" { assert s[i + 1] == after[0]; }
    if |colons| == 2 { assert s[i + 2] == colons[1]; } else if |colons| == 1 && after != "" { assert s[i + 2] == after[0]; }
  }

  lemma NotDeclared(optstring: string, c: char)
    ensures KindOf(optstring, c) == Unknown <==> c == ':' || c !in optstring
  {
    if c in optstring {
      var k :| 0 <= k < |optstring| && optstring[k] == c;
    }
  }

  // ----- layouts -----

  // What stands on the command line: an operand, or options that share an element, the last of which may have an
  // argument, in the same element or in the next one.
  datatype Word =
    | Operand(text: string)
    | Flags(flags: string)
    | Attached(flags: string, c: char, value: string)
    | Separate(flags: string, c: char, value: string)
    | Bare(flags: string, c: char)

  // How the command line ends: with no more, with operands behind two dashes, or with an option whose argument is missing.
  datatype Ending = Nothing | Dashes(operands: seq<string>) | Missing(flags: string, c: char)

  predicate AreFlags(optstring: string, flags: string) {
    forall c :: c in flags ==> KindOf(optstring, c) == NoArgument || KindOf(optstring, c) == Unknown
  }

  predicate ValidWord(optstring: string, w: Word) {
    match w
    case Operand(text) => text == "" || text == "-" || text[0] != '-'
    case Flags(flags) => AreFlags(optstring, flags) && flags != "" && flags != "-"
    case Attached(flags, c, value) =>
      AreFlags(optstring, flags) && value != ""
      && (KindOf(optstring, c) == RequiredArgument || KindOf(optstring, c) == OptionalArgument)
    case Separate(flags, c, _) =>
      AreFlags(optstring, flags) && KindOf(optstring, c) == RequiredArgument && flags + [c] != "-"
    case Bare(flags, c) => AreFlags(optstring, flags) && KindOf(optstring, c) == OptionalArgument && flags + [c] != "-"
  }

  predicate ValidEnding(optstring: string, e: Ending) {
    e.Missing? ==> AreFlags(optstring, e.flags) && KindOf(optstring, e.c) == RequiredArgument && e.flags + [e.c] != "-"
  }

  function WordArgs(w: Word): (args: seq<string>)
    ensures args != []
  {
    match w
    case Operand(text) => [text]
    case Flags(flags) => ["-" + flags]
    case Attached(flags, c, value) => ["-" + flags + [c] + value]
    case Separate(flags, c, value) => ["-" + flags + [c], value]
    case Bare(flags, c) => ["-" + flags + [c]]
  }

  function EndingArgs(e: Ending): seq<string> {
    match e
    case Nothing => []
    case Dashes(operands) => ["--"] + operands
    case Missing(flags, c) => ["-" + flags + [c]]
  }

  function LineArgs(ws: seq<Word>, e: Ending): seq<string> {
    if ws == [] then EndingArgs(e) else WordArgs(ws[0]) + LineArgs(ws[1..], e)
  }

  // ----- what they mean -----

  function FlagOutcome(optstring: string, c: char): Outcome {
    if c == ':' || c !in optstring then Complaint('?', c) else Found(c, None)
  }

  function FlagOutcomes(optstring: string, flags: string): seq<Outcome> {
    if flags == "" then [] else [FlagOutcome(optstring, flags[0])] + FlagOutcomes(optstring, flags[1..])
  }

  function WordOutcomes(optstring: string, w: Word): seq<Outcome> {
    match w
    case Operand(_) => []
    case Flags(flags) => FlagOutcomes(optstring, flags)
    case Attached(flags, c, value) => FlagOutcomes(optstring, flags) + [Found(c, Some(value))]
    case Separate(flags, c, value) => FlagOutcomes(optstring, flags) + [Found(c, Some(value))]
    case Bare(flags, c) => FlagOutcomes(optstring, flags) + [Found(c, None)]
  }

  // A missing argument is reported with a colon when the option string starts with one.
  function EndingOutcomes(optstring: string, e: Ending): seq<Outcome> {
    if e.Missing? then
      FlagOutcomes(optstring, e.flags) + [Complaint(if optstring != "" && optstring[0] == ':' then ':' else '?', e.c)]
    else []
  }

  function LineOutcomes(optstring: string, ws: seq<Word>, e: Ending): seq<Outcome> {
    if ws == [] then EndingOutcomes(optstring, e)
    else WordOutcomes(optstring, ws[0]) + LineOutcomes(optstring, ws[1..], e)
  }

  // The elements of the options with their arguments, and the operands.
  function LineOptions(ws: seq<Word>, e: Ending): seq<string> {
    if ws == [] then (if e.Dashes? then ["--"] else EndingArgs(e))
    else (if ws[0].Operand? then [] else WordArgs(ws[0])) + LineOptions(ws[1..], e)
  }

  function LineOperands(ws: seq<Word>, e: Ending): seq<string> {
    if ws == [] then (if e.Dashes? then e.operands else [])
    else (if ws[0].Operand? then WordArgs(ws[0]) else []) + LineOperands(ws[1..], e)
  }

  // ----- one element -----

  lemma FlagRead(optstring: string, next: string, c: char, rest: string, args: seq<string>)
    requires next == [c] + rest && args != [] && (KindOf(optstring, c) == NoArgument || KindOf(optstring, c) == Unknown)
    ensures Outcomes(optstring, next, args)
            == [FlagOutcome(optstring, c)] + Outcomes(optstring, rest, if rest == "" then args[1..] else args)
    ensures WantsNext(optstring, next) == WantsNext(optstring, rest)
  {
    assert next[0] == c && next[1..] == rest;
    NotDeclared(optstring, c);
    hide KindOf;
  }

  lemma Prepended(optstring: string, flags: string, end: seq<Outcome>)
    requires flags != ""
    ensures [FlagOutcome(optstring, flags[0])] + (FlagOutcomes(optstring, flags[1..]) + end) == FlagOutcomes(optstring, flags) + end
  {
    hide FlagOutcome;
  }

  lemma {:induction false} ClusterRead(optstring: string, flags: string, tail: string, args: seq<string>)
    requires AreFlags(optstring, flags) && args != []
    ensures Outcomes(optstring, flags + tail, args)
            == FlagOutcomes(optstring, flags)
               + (if tail != "" || flags == "" then Outcomes(optstring, tail, args) else Outcomes(optstring, "", args[1..]))
    ensures WantsNext(optstring, flags + tail) == WantsNext(optstring, tail)
    decreases |flags|
  {
    hide KindOf, Outcomes, WantsNext, FlagOutcome, FlagOutcomes;
    if flags == "" {
      assert flags + tail == tail;
      NoFlags(optstring, Outcomes(optstring, tail, args));
    } else {
      var c, rest := flags[0], flags[1..];
      assert flags + tail == [c] + (rest + tail) && c in flags;
      FlagRead(optstring, flags + tail, c, rest + tail, args);
      if rest + tail == "" {
        Prepended(optstring, flags, Outcomes(optstring, "", args[1..]));
        NoFlags(optstring, Outcomes(optstring, "", args[1..]));
      } else {
        assert forall d :: d in rest ==> d in flags;
        ClusterRead(optstring, rest, tail, args);
        Prepended(optstring, flags, if tail != "" then Outcomes(optstring, tail, args) else Outcomes(optstring, "", args[1..]));
      }
    }
  }

  lemma NoFlags(optstring: string, end: seq<Outcome>)
    ensures FlagOutcomes(optstring, "") + end == end
  {
  }

  lemma LastRead(optstring: string, c: char, value: string, args: seq<string>)
    requires args != []
    ensures var kind, r := KindOf(optstring, c), Outcomes(optstring, [c] + value, args);
            && (value != "" && (kind == RequiredArgument || kind == OptionalArgument) ==>
                  r == [Found(c, Some(value))] + Outcomes(optstring, "", args[1..]) && !WantsNext(optstring, [c] + value))
            && (value == "" && kind == OptionalArgument ==>
                  r == [Found(c, None)] + Outcomes(optstring, "", args[1..]) && !WantsNext(optstring, [c] + value))
            && (value == "" && kind == RequiredArgument ==>
                  WantsNext(optstring, [c] + value)
                  && r == if |args| == 1 then [Complaint(MissingCode(optstring), c)]
                          else [Found(c, Some(args[1]))] + Outcomes(optstring, "", args[2..]))
  {
    hide KindOf;
    var next := [c] + value;
    assert next[0] == c && next[1..] == value;
  }

  // An element of options, whose characters behind the dash are text.
  lemma ElementStarts(optstring: string, text: string, args: seq<string>)
    requires args != [] && args[0] == "-" + text && text != "" && text != "-"
    ensures Outcomes(optstring, "", args) == Outcomes(optstring, text, args)
    ensures Split(optstring, args)
            == var n := if WantsNext(optstring, text) && |args| > 1 then 2 else 1;
               var (opts, rest) := Split(optstring, args[n..]); (args[..n] + opts, rest)
  {
    hide KindOf;
    assert args[0][1..] == text && args[0][0] == '-' && |args[0]| >= 2;
    assert "--"[1..] == "-";
  }

  lemma OperandRead(optstring: string, text: string, rest: seq<string>)
    requires text == "" || text == "-" || text[0] != '-'
    ensures Outcomes(optstring, "", [text] + rest) == Outcomes(optstring, "", rest)
    ensures Split(optstring, [text] + rest) == var (opts, operands) := Split(optstring, rest); (opts, [text] + operands)
  {
    assert ([text] + rest)[1..] == rest && ([text] + rest)[0] == text;
    assert text != "--";
  }

  // ----- whole command lines -----

  // Put the words of one element in front of the rest of the line.
  predicate Continues(optstring: string, w: Word, rest: seq<string>) {
    var (opts, operands) := Split(optstring, rest);
    && Outcomes(optstring, "", WordArgs(w) + rest) == WordOutcomes(optstring, w) + Outcomes(optstring, "", rest)
    && Split(optstring, WordArgs(w) + rest)
       == if w.Operand? then (opts, WordArgs(w) + operands) else (WordArgs(w) + opts, operands)
  }

  lemma WordRead(optstring: string, w: Word, rest: seq<string>)
    requires ValidWord(optstring, w)
    ensures Continues(optstring, w, rest)
  {
    match w
    case Operand(text) =>
      OperandRead(optstring, text, rest);
      assert [] + Outcomes(optstring, "", rest) == Outcomes(optstring, "", rest);
    case Flags(flags) => FlagsRead(optstring, flags, rest);
    case Attached(flags, c, value) => ArgumentRead(optstring, flags, c, value, w, rest);
    case Separate(flags, c, value) => SeparateRead(optstring, flags, c, value, rest);
    case Bare(flags, c) => ArgumentRead(optstring, flags, c, "", w, rest);
  }

  lemma FlagsRead(optstring: string, flags: string, rest: seq<string>)
    requires ValidWord(optstring, Flags(flags))
    ensures Continues(optstring, Flags(flags), rest)
  {
    hide Outcomes, Split, WantsNext, FlagOutcomes;
    var args := ["-" + flags] + rest;
    assert args[1..] == rest && args[..1] == ["-" + flags] && flags + "" == flags;
    ElementStarts(optstring, flags, args);
    ClusterRead(optstring, flags, "", args);
    NothingWanted(optstring);
  }

  lemma NothingWanted(optstring: string)
    ensures !WantsNext(optstring, "")
  {
  }

  lemma ArgumentRead(optstring: string, flags: string, c: char, value: string, w: Word, rest: seq<string>)
    requires ValidWord(optstring, w) && w == if value == "" then Bare(flags, c) else Attached(flags, c, value)
    ensures Continues(optstring, w, rest)
  {
    hide Outcomes, Split, WantsNext, FlagOutcomes, KindOf;
    var text := flags + ([c] + value);
    var args := WordArgs(w) + rest;
    assert "-" + flags + [c] + value == "-" + text;
    if value == "" { assert [c] + value == [c]; } else { assert |text| > 1; }
    assert args[0] == "-" + text && args[1..] == rest && args[..1] == WordArgs(w);
    ElementStarts(optstring, text, args);
    ClusterRead(optstring, flags, [c] + value, args);
    LastRead(optstring, c, value, args);
    var arg := if value == "" then None else Some(value);
    assert FlagOutcomes(optstring, flags) + ([Found(c, arg)] + Outcomes(optstring, "", rest))
        == (FlagOutcomes(optstring, flags) + [Found(c, arg)]) + Outcomes(optstring, "", rest);
  }

  lemma SeparateRead(optstring: string, flags: string, c: char, value: string, rest: seq<string>)
    requires ValidWord(optstring, Separate(flags, c, value))
    ensures Continues(optstring, Separate(flags, c, value), rest)
  {
    hide Outcomes, Split, WantsNext, FlagOutcomes, KindOf;
    var w, text := Separate(flags, c, value), flags + [c];
    var args := WordArgs(w) + rest;
    assert "-" + flags + [c] == "-" + text && [c] + "" == [c];
    assert args[0] == "-" + text && args[1] == value && args[2..] == rest && args[..2] == WordArgs(w);
    ElementStarts(optstring, text, args);
    ClusterRead(optstring, flags, [c], args);
    LastRead(optstring, c, "", args);
    assert FlagOutcomes(optstring, flags) + ([Found(c, Some(value))] + Outcomes(optstring, "", rest))
        == (FlagOutcomes(optstring, flags) + [Found(c, Some(value))]) + Outcomes(optstring, "", rest);
  }

  lemma EndingRead(optstring: string, e: Ending)
    requires ValidEnding(optstring, e)
    ensures Outcomes(optstring, "", EndingArgs(e)) == EndingOutcomes(optstring, e)
    ensures Split(optstring, EndingArgs(e)) == (LineOptions([], e), LineOperands([], e))
  {
    match e
    case Nothing =>
    case Dashes(operands) => assert (["--"] + operands)[1..] == operands;
    case Missing(flags, c) =>
      hide Outcomes, Split, WantsNext, FlagOutcomes, KindOf;
      var args, text := EndingArgs(e), flags + [c];
      assert "-" + flags + [c] == "-" + text && [c] + "" == [c];
      assert args[1..] == [] && args[..1] == args;
      ElementStarts(optstring, text, args);
      ClusterRead(optstring, flags, [c], args);
      LastRead(optstring, c, "", args);
      NoArguments(optstring);
      assert args + [] == args;
  }

  lemma NoArguments(optstring: string)
    ensures Outcomes(optstring, "", []) == [] && Split(optstring, []) == ([], [])
  {
  }

  // On every command line the scan finds the options in their order, each with its argument wherever that stands, and
  // tells the operands from them.
  lemma {:induction false} LineRead(optstring: string, ws: seq<Word>, e: Ending)
    requires (forall w :: w in ws ==> ValidWord(optstring, w)) && ValidEnding(optstring, e)
    ensures Outcomes(optstring, "", LineArgs(ws, e)) == LineOutcomes(optstring, ws, e)
    ensures Split(optstring, LineArgs(ws, e)) == (LineOptions(ws, e), LineOperands(ws, e))
    decreases |ws|
  {
    hide Outcomes, Split, ValidWord, WordArgs, WordOutcomes, EndingArgs, EndingOutcomes;
    if ws == [] {
      EndingRead(optstring, e);
    } else {
      assert ws[0] in ws;
      LineRead(optstring, ws[1..], e);
      WordRead(optstring, ws[0], LineArgs(ws[1..], e));
      Unprefixed(LineOptions(ws[1..], e), LineOperands(ws[1..], e));
    }
  }

  lemma Unprefixed(a: seq<string>, b: seq<string>)
    ensures [] + a == a && [] + b == b
  {
  }
}
