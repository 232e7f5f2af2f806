/**
 * `MenuCLI`: a line editor over `_lineBuffer` that feeds completed lines to
 * a command table (`std::map<String, CommandInfo>`), plus the
 * `MultiOutputStream` that fans output out to every attached transport.
 *
 * A handler is a `std::function` supplied by the caller; here it is an
 * opaque value of type `H`, and running it is the event `Call(handler, args)`
 * in the list of events a step produces. The exit callback is an opaque `X`.
 * Everything the CLI prints is an `Output(port, text)` event, one per
 * attached output, in the order the source writes them.
 */
module MenuCliLib {
  import opened Wrappers
  import opened ArduinoText
  import opened Streams

  datatype Event<H> = Output(port: Port, text: string) | Call(handler: H, args: string)

  /** One map entry: the key and its `CommandInfo`. */
  datatype Entry<H> = Entry(key: string, help: string, handler: H)

  /** What `processLine` decides to do with a line. */
  datatype Action<H> = Nothing | ShowHelp | Run(key: string, handler: H, args: string) | Unknown

  const BS: char := '\U{0008}'
  const DEL: char := '\U{007F}'
  const Prompt: string := "> "
  const Erase: string := "\U{0008} \U{0008}"
  const UnknownMessage: string := "Unknown command. Type 'help' for a list.\n"
  const HelpHeading: string := "Available commands:\n"
  const HelpHelpLine: string := "  help: Show this help\n"
  const HelpExitLine: string := "  exit: Exit menu\n"

  // ---------------------------------------------------------------------------
  // The command table: std::map as a strictly sorted association list
  // ---------------------------------------------------------------------------

  /** Keys strictly increasing: unique, and in the order the map iterates them. */
  predicate Sorted<H>(es: seq<Entry<H>>) {
    forall i, j :: 0 <= i < j < |es| ==> LexLess(es[i].key, es[j].key)
  }

  /** `_commands.find(key)`. */
  function Find<H>(es: seq<Entry<H>>, key: string): (r: Option<Entry<H>>)
    ensures r.Some? ==> r.value in es && r.value.key == key
    ensures r.None? <==> forall i :: 0 <= i < |es| ==> es[i].key != key
  {
    if es == [] then None
    else if es[0].key == key then Some(es[0])
    else Find(es[1..], key)
  }

  /** `_commands[e.key] = {e.help, e.handler}`: insert in key order, or replace the entry with that key. */
  function Insert<H>(es: seq<Entry<H>>, e: Entry<H>): seq<Entry<H>>
  {
    if es == [] then [e]
    else if es[0].key == e.key then [e] + es[1..]
    else if LexLess(e.key, es[0].key) then [e] + es
    else [es[0]] + Insert(es[1..], e)
  }

  /** Every key of the result is e's key or a key of es. */
  lemma {:induction false} InsertKeys<H>(es: seq<Entry<H>>, e: Entry<H>, i: nat)
    requires i < |Insert(es, e)|
    ensures Insert(es, e)[i].key == e.key || exists j :: 0 <= j < |es| && es[j].key == Insert(es, e)[i].key
  {
    if es != [] && es[0].key != e.key && !LexLess(e.key, es[0].key) && i > 0 {
      InsertKeys(es[1..], e, i - 1);
      var k := Insert(es, e)[i].key;
      if k != e.key {
        var j :| 0 <= j < |es[1..]| && es[1..][j].key == k;
        assert es[j + 1].key == k;
      }
    }
  }

  /** Insertion keeps the keys unique and sorted. */
  lemma {:induction false} InsertSorted<H>(es: seq<Entry<H>>, e: Entry<H>)
    requires Sorted(es)
    ensures Sorted(Insert(es, e))
  {
    if es == [] || es[0].key == e.key {
    } else if LexLess(e.key, es[0].key) {
      forall j | 1 <= j < |es| + 1 ensures LexLess(e.key, ([e] + es)[j].key) {
        if j > 1 {
          LexLessTransitive(e.key, es[0].key, es[j - 1].key);
        }
      }
    } else {
      var tail := es[1..];
      InsertSorted(tail, e);
      var r := [es[0]] + Insert(tail, e);
      LexLessTotal(e.key, es[0].key);
      forall j | 1 <= j < |r| ensures LexLess(es[0].key, r[j].key) {
        InsertKeys(tail, e, j - 1);
      }
    }
  }

  /** After insertion the key finds the new entry, and every other key finds what it found before. */
  lemma {:induction false} FindInsert<H>(es: seq<Entry<H>>, e: Entry<H>, key: string)
    ensures Find(Insert(es, e), key) == if key == e.key then Some(e) else Find(es, key)
  {
    if es == [] {
    } else if es[0].key == e.key {
      if key != e.key {
        assert Find([e] + es[1..], key) == Find(es[1..], key);
      }
    } else if LexLess(e.key, es[0].key) {
      if key != e.key {
        assert Find([e] + es, key) == Find(es, key);
      }
    } else {
      FindInsert(es[1..], e, key);
      assert Find([es[0]] + Insert(es[1..], e), key) ==
        if es[0].key == key then Some(es[0]) else Find(Insert(es[1..], e), key);
    }
  }

  /** The table after registering the entries of ns one after another, first to last. */
  function InsertAll<H>(es: seq<Entry<H>>, ns: seq<Entry<H>>): seq<Entry<H>>
    decreases |ns|
  {
    if ns == [] then es else Insert(InsertAll(es, ns[..|ns| - 1]), ns[|ns| - 1])
  }

  /** The last entry of ns under that key, if any. */
  function LastWithKey<H>(ns: seq<Entry<H>>, key: string): (r: Option<Entry<H>>)
    ensures r.Some? ==> r.value in ns && r.value.key == key
    ensures r.None? <==> forall i :: 0 <= i < |ns| ==> ns[i].key != key
  {
    if ns == [] then None
    else if ns[|ns| - 1].key == key then Some(ns[|ns| - 1])
    else LastWithKey(ns[..|ns| - 1], key)
  }

  /** One more registration extends the run by one insertion. */
  lemma InsertAllStep<H>(es: seq<Entry<H>>, ns: seq<Entry<H>>, i: nat)
    requires i < |ns|
    ensures InsertAll(es, ns[..i + 1]) == Insert(InsertAll(es, ns[..i]), ns[i])
  {
    assert ns[..i + 1][..i] == ns[..i];
  }

  /** A run of registrations keeps the keys unique and sorted. */
  lemma {:induction false} InsertAllSorted<H>(es: seq<Entry<H>>, ns: seq<Entry<H>>)
    requires Sorted(es)
    ensures Sorted(InsertAll(es, ns))
    decreases |ns|
  {
    if ns != [] {
      InsertAllSorted(es, ns[..|ns| - 1]);
      InsertSorted(InsertAll(es, ns[..|ns| - 1]), ns[|ns| - 1]);
    }
  }

  /** After a run of registrations a key finds the last entry registered under it, or what it found before. */
  lemma {:induction false} FindInsertAll<H>(es: seq<Entry<H>>, ns: seq<Entry<H>>, key: string)
    ensures Find(InsertAll(es, ns), key) == if LastWithKey(ns, key).Some? then LastWithKey(ns, key) else Find(es, key)
    decreases |ns|
  {
    if ns != [] {
      FindInsertAll(es, ns[..|ns| - 1], key);
      FindInsert(InsertAll(es, ns[..|ns| - 1]), ns[|ns| - 1], key);
    }
  }

  /** FindInsertAll for every key at once. */
  lemma FindAfterInsertAll<H>(es: seq<Entry<H>>, ns: seq<Entry<H>>, after: seq<Entry<H>>)
    requires after == InsertAll(es, ns)
    ensures forall k :: Find(after, k) == if LastWithKey(ns, k).Some? then LastWithKey(ns, k) else Find(es, k)
  {
    forall k {
      FindInsertAll(es, ns, k);
    }
  }

  /** When no key is registered twice, every registered key finds its own entry. */
  lemma {:induction false} LastWithDistinctKey<H>(ns: seq<Entry<H>>, i: nat)
    requires i < |ns|
    requires forall j, k :: 0 <= j < k < |ns| ==> ns[j].key != ns[k].key
    ensures LastWithKey(ns, ns[i].key) == Some(ns[i])
    decreases |ns|
  {
    if i < |ns| - 1 {
      LastWithDistinctKey(ns[..|ns| - 1], i);
    }
  }

  // ---------------------------------------------------------------------------
  // processLine
  // ---------------------------------------------------------------------------

  /** The command word: the trimmed line up to its first space, lower-cased. */
  function CommandWord(t: string): string {
    var idx := IndexOf(t, ' ');
    ToLower(if idx == -1 then t else t[..idx])
  }

  /** The arguments: the trimmed line after its first space, or "" when it has none. */
  function Arguments(t: string): string {
    var idx := IndexOf(t, ' ');
    if idx == -1 then "" else t[idx + 1..]
  }

  /**
   * `processLine`: an all-blank line does nothing; `help` is recognised
   * before the table is consulted; otherwise the command word is looked up
   * as a whole key.
   */
  function Dispatch<H>(line: string, es: seq<Entry<H>>): Action<H> {
    var t := Trim(line);
    if t == [] then Nothing else DispatchWord(CommandWord(t), Arguments(t), es)
  }

  /** What a non-blank line does once split into its command word and arguments. */
  function DispatchWord<H>(cmd: string, args: string, es: seq<Entry<H>>): Action<H> {
    if cmd == "help" then ShowHelp
    else match Find(es, cmd)
      case Some(e) => Run(e.key, e.handler, args)
      case None => Unknown
  }

  lemma CommandWordHasNoSpace(t: string)
    ensures ' ' !in CommandWord(t)
  {
    var idx := IndexOf(t, ' ');
    ToLowerKeepsSpaces(if idx == -1 then t else t[..idx]);
  }

  /** A line is dispatched at all exactly when it has a non-blank character. */
  lemma DispatchNothing<H>(line: string, es: seq<Entry<H>>)
    ensures Dispatch(line, es).Nothing? <==> forall i :: 0 <= i < |line| ==> IsSpace(line[i])
  {
    var t := Trim(line);
    if t != [] {
      assert Dispatch(line, es) == DispatchWord(CommandWord(t), Arguments(t), es);
    }
  }

  /**
   * A handler runs only for a key that is the line's first word, lower-cased,
   * and the key is registered with that handler; `help` never reaches the table.
   */
  lemma DispatchRun<H>(line: string, es: seq<Entry<H>>)
    requires Dispatch(line, es).Run?
    ensures var a := Dispatch(line, es);
            && a.key == CommandWord(Trim(line))
            && a.args == Arguments(Trim(line))
            && a.key != "help"
            && ' ' !in a.key
            && Entry(a.key, Find(es, a.key).value.help, a.handler) in es
  {
    CommandWordHasNoSpace(Trim(line));
  }

  /**
   * The lookup takes only the first word, so a key with a space in it is
   * never found: a table whose every key has a space runs no handler for
   * any line.
   */
  lemma MultiWordKeysNeverRun<H>(line: string, es: seq<Entry<H>>)
    requires forall i :: 0 <= i < |es| ==> ' ' in es[i].key
    ensures !Dispatch(line, es).Run?
  {
    var t := Trim(line);
    if t != [] && CommandWord(t) != "help" {
      CommandWordHasNoSpace(t);
    }
  }

  /** A line splits at its first space: the word before it is the command, the rest the arguments. */
  lemma SplitAtFirstSpace(t: string, k: nat)
    requires k < |t| && t[k] == ' ' && ' ' !in t[..k]
    ensures CommandWord(t) == ToLower(t[..k]) && Arguments(t) == t[k + 1..]
  {
  }

  /**
   * A line "word args" (no blank at either end, no space in the word) runs
   * the entry of the lower-cased word with the arguments, unless the word is
   * `help`; an unregistered word is unknown.
   */
  lemma DispatchWordAndArgs<H>(w: string, rest: string, es: seq<Entry<H>>)
    requires |w| > 0 && ' ' !in w && !IsSpace(w[0])
    requires |rest| > 0 && !IsSpace(rest[|rest| - 1])
    ensures Dispatch(w + " " + rest, es) == DispatchWord(ToLower(w), rest, es)
  {
    var t := w + " " + rest;
    assert t[0] == w[0] && t[|t| - 1] == rest[|rest| - 1];
    TrimOfTrimmed(t);
    assert t[..|w|] == w && t[|w|] == ' ';
    SplitAtFirstSpace(t, |w|);
    assert t[|w| + 1..] == rest;
  }

  /** The registration "set baud serial1" is not reached by its own usage line. */
  lemma UsageLineIsUnknown<H>(es: seq<Entry<H>>, key: string, h: H, w: string, rest: string)
    requires key == "set baud serial1" && es == [Entry(key, "Set Serial1 baudrate", h)]
    requires w == "set" && rest == "baud serial1 9600"
    ensures Dispatch(w + " " + rest, es) == Unknown
  {
    assert ToLower(w) == w by {
      var r := ToLower(w);
      assert r[0] == 's' && r[1] == 'e' && r[2] == 't';
    }
    assert Find(es, w) == None by {
      assert |key| != |w|;
    }
    DispatchWordAndArgs(w, rest, es);
  }

  // ---------------------------------------------------------------------------
  // Output: bufferOutput, printHelp, and the events of one step
  // ---------------------------------------------------------------------------

  /** `bufferOutput(s)`: s to every attached output, in attachment order. */
  function Broadcast<H>(outputs: seq<Port>, s: string): (r: seq<Event<H>>)
    ensures |r| == |outputs|
    ensures forall i :: 0 <= i < |outputs| ==> r[i] == Output(outputs[i], s)
  {
    seq(|outputs|, i requires 0 <= i < |outputs| => Output(outputs[i], s))
  }

  /** The events of several `bufferOutput` calls in a row. */
  function BroadcastAll<H>(outputs: seq<Port>, texts: seq<string>): seq<Event<H>>
    decreases |texts|
  {
    if texts == [] then [] else BroadcastAll(outputs, texts[..|texts| - 1]) + Broadcast(outputs, texts[|texts| - 1])
  }

  function HelpLine<H>(e: Entry<H>): string {
    "  " + e.key + ": " + e.help + "\n"
  }

  /** The help lines of the table entries, in table order. */
  function EntryHelpLines<H>(es: seq<Entry<H>>): (r: seq<string>)
    ensures |r| == |es|
    ensures forall i :: 0 <= i < |es| ==> r[i] == HelpLine(es[i])
  {
    seq(|es|, i requires 0 <= i < |es| => HelpLine(es[i]))
  }

  /** One more entry is one more help line at the end. */
  lemma HelpLinesSnoc<H>(es: seq<Entry<H>>, i: nat)
    requires i < |es|
    ensures EntryHelpLines(es[..i + 1]) == EntryHelpLines(es[..i]) + [HelpLine(es[i])]
  {
    assert es[..i + 1][i] == es[i];
  }

  /** Everything `printHelp` prints: a heading, one line per key, then `help` and `exit`. */
  function HelpTexts<H>(es: seq<Entry<H>>): seq<string> {
    [HelpHeading] + EntryHelpLines(es) + [HelpHelpLine, HelpExitLine]
  }

  /** Writing one more text after several is one more broadcast at the end. */
  lemma BroadcastAllSnoc<H>(outputs: seq<Port>, texts: seq<string>, x: string)
    ensures BroadcastAll<H>(outputs, texts + [x]) == BroadcastAll<H>(outputs, texts) + Broadcast(outputs, x)
  {
    assert (texts + [x])[..|texts|] == texts;
  }

  /** The listing so far after the heading alone. */
  lemma HelpListingStart<H>(outputs: seq<Port>, es: seq<Entry<H>>)
    ensures Broadcast<H>(outputs, HelpHeading) == BroadcastAll<H>(outputs, [HelpHeading] + EntryHelpLines(es[..0]))
  {
    BroadcastAllSnoc<H>(outputs, [], HelpHeading);
    assert [HelpHeading] + EntryHelpLines(es[..0]) == [] + [HelpHeading];
  }

  /** The listing so far after the help line of entry i. */
  lemma HelpListingStep<H>(outputs: seq<Port>, es: seq<Entry<H>>, i: nat)
    requires i < |es|
    ensures BroadcastAll<H>(outputs, [HelpHeading] + EntryHelpLines(es[..i + 1]))
         == BroadcastAll<H>(outputs, [HelpHeading] + EntryHelpLines(es[..i])) + Broadcast(outputs, HelpLine(es[i]))
  {
    var texts := [HelpHeading] + EntryHelpLines(es[..i]);
    HelpLinesSnoc(es, i);
    assert [HelpHeading] + EntryHelpLines(es[..i + 1]) == texts + [HelpLine(es[i])];
    BroadcastAllSnoc<H>(outputs, texts, HelpLine(es[i]));
  }

  /** The whole listing: the lines of the table followed by `help` and `exit`. */
  lemma HelpListingEnd<H>(outputs: seq<Port>, es: seq<Entry<H>>)
    ensures BroadcastAll<H>(outputs, HelpTexts(es))
         == BroadcastAll<H>(outputs, [HelpHeading] + EntryHelpLines(es)) + Broadcast(outputs, HelpHelpLine) + Broadcast(outputs, HelpExitLine)
  {
    var texts := [HelpHeading] + EntryHelpLines(es);
    BroadcastAllSnoc<H>(outputs, texts, HelpHelpLine);
    BroadcastAllSnoc<H>(outputs, texts + [HelpHelpLine], HelpExitLine);
    assert texts + [HelpHelpLine] + [HelpExitLine] == HelpTexts(es);
  }

  /**
   * The help listing names every registered key once, in table order (which
   * for a sorted table is ascending key order), after the heading, and ends
   * with `help` and `exit`.
   */
  lemma HelpTextsOrder<H>(es: seq<Entry<H>>)
    ensures var t := HelpTexts(es);
            && |t| == |es| + 3
            && t[0] == HelpHeading
            && (forall i :: 1 <= i <= |es| ==> t[i] == "  " + es[i - 1].key + ": " + es[i - 1].help + "\n")
            && t[|es| + 1] == HelpHelpLine && t[|es| + 2] == HelpExitLine
  {
  }

  /** The events of an action of `processLine`. */
  function ActionEvents<H>(a: Action<H>, es: seq<Entry<H>>, outputs: seq<Port>): seq<Event<H>> {
    match a
    case Nothing => []
    case ShowHelp => BroadcastAll(outputs, HelpTexts(es))
    case Run(_, h, args) => [Call(h, args)]
    case Unknown => Broadcast(outputs, UnknownMessage)
  }

  /**
   * `handleInputChar(c)`: the new line buffer and the events. Every
   * character is echoed first when echo is on; CR then does nothing else;
   * LF prints a newline, processes the line, empties the buffer and prints
   * the prompt; BS or DEL on a non-empty buffer drops its last character
   * and prints the erase sequence; a printable character is appended and
   * printed; anything else is dropped.
   */
  function Step<H>(line: string, echo: bool, es: seq<Entry<H>>, outputs: seq<Port>, c: char): (string, seq<Event<H>>) {
    var echoed: seq<Event<H>> := if echo then Broadcast(outputs, [c]) else [];
    if c == '\r' then (line, echoed)
    else if c == '\n' then
      ([], echoed + Broadcast(outputs, "\n") + ActionEvents(Dispatch(line, es), es, outputs) + Broadcast(outputs, Prompt))
    else if c == BS || c == DEL then
      if |line| > 0 then (line[..|line| - 1], echoed + Broadcast(outputs, Erase)) else (line, echoed)
    else if IsPrintable(c) then (line + [c], echoed + Broadcast(outputs, [c]))
    else (line, echoed)
  }

  /** `write(buffer, size)`: the characters handled one after the other. */
  function Feed<H>(line: string, echo: bool, es: seq<Entry<H>>, outputs: seq<Port>, s: string): (string, seq<Event<H>>)
    decreases |s|
  {
    if s == [] then (line, [])
    else
      var (l1, e1) := Feed(line, echo, es, outputs, s[..|s| - 1]);
      var (l2, e2) := Step(l1, echo, es, outputs, s[|s| - 1]);
      (l2, e1 + e2)
  }

  // ---------------------------------------------------------------------------
  // Properties of the line editor
  // ---------------------------------------------------------------------------

  /** CR never changes the line buffer; apart from its echo it prints nothing. */
  lemma StepCarriageReturn<H>(line: string, echo: bool, es: seq<Entry<H>>, outputs: seq<Port>)
    ensures Step(line, echo, es, outputs, '\r') == (line, if echo then Broadcast(outputs, "\r") else [])
  {
  }

  /**
   * LF processes the buffer as it was, then empties it; what it prints ends
   * with the prompt on every output.
   */
  lemma StepNewline<H>(line: string, echo: bool, es: seq<Entry<H>>, outputs: seq<Port>)
    ensures var (l, evs) := Step(line, echo, es, outputs, '\n');
            var a := ActionEvents(Dispatch(line, es), es, outputs);
            && l == []
            && |evs| >= |a| + |outputs|
            && evs[|evs| - |outputs|..] == Broadcast(outputs, Prompt)
            && evs[|evs| - |outputs| - |a|..|evs| - |outputs|] == a
  {
  }

  /**
   * BS or DEL removes exactly the last character of a non-empty buffer and
   * prints the erase sequence; on an empty buffer it changes nothing and,
   * with echo off, prints nothing.
   */
  lemma StepErase<H>(line: string, echo: bool, es: seq<Entry<H>>, outputs: seq<Port>, c: char)
    requires c == BS || c == DEL
    ensures var (l, evs) := Step(line, echo, es, outputs, c);
            && (|line| > 0 ==> l + [line[|line| - 1]] == line && evs[|evs| - |outputs|..] == Broadcast(outputs, Erase))
            && (|line| == 0 ==> l == line && (!echo ==> evs == []))
  {
  }

  /** A printable character is appended; any other character outside CR, LF, BS and DEL is dropped. */
  lemma StepOther<H>(line: string, echo: bool, es: seq<Entry<H>>, outputs: seq<Port>, c: char)
    requires c != '\r' && c != '\n' && c != BS && c != DEL
    ensures Step(line, echo, es, outputs, c).0 == if IsPrintable(c) then line + [c] else line
  {
  }

  /** The line buffer only ever holds printable characters. */
  predicate AllPrintable(s: string) {
    forall i :: 0 <= i < |s| ==> IsPrintable(s[i])
  }

  lemma {:induction false} FeedKeepsPrintable<H>(line: string, echo: bool, es: seq<Entry<H>>, outputs: seq<Port>, s: string)
    requires AllPrintable(line)
    ensures AllPrintable(Feed(line, echo, es, outputs, s).0)
    decreases |s|
  {
    if s != [] {
      FeedKeepsPrintable(line, echo, es, outputs, s[..|s| - 1]);
    }
  }

  /** Any per-character step function applied to the characters of s, one after the other. */
  function Fold<S, E>(f: (S, char) -> (S, seq<E>), st: S, s: string): (S, seq<E>)
    decreases |s|
  {
    if s == [] then (st, [])
    else
      var before := Fold(f, st, s[..|s| - 1]);
      var last := f(before.0, s[|s| - 1]);
      (last.0, before.1 + last.1)
  }

  lemma {:induction false} FoldConcat<S, E>(f: (S, char) -> (S, seq<E>), st: S, s: string, t: string)
    ensures var first := Fold(f, st, s);
            var second := Fold(f, first.0, t);
            Fold(f, st, s + t) == (second.0, first.1 + second.1)
    decreases |t|
  {
    var first := Fold(f, st, s);
    if t == [] {
      assert s + t == s;
      assert first.1 + [] == first.1;
    } else {
      var t' := t[..|t| - 1];
      var c := t[|t| - 1];
      FoldConcat(f, st, s, t');
      assert (s + t)[..|s + t| - 1] == s + t';
      assert (s + t)[|s + t| - 1] == c;
      var mid := Fold(f, first.0, t');
      var last := f(mid.0, c);
      assert (first.1 + mid.1) + last.1 == first.1 + (mid.1 + last.1);
    }
  }

  /** `Feed` is the fold of `Step`. */
  lemma {:induction false} FeedIsFold<H>(line: string, echo: bool, es: seq<Entry<H>>, outputs: seq<Port>, s: string)
    ensures Feed(line, echo, es, outputs, s) == Fold((l, c) => Step(l, echo, es, outputs, c), line, s)
    decreases |s|
  {
    if s != [] {
      FeedIsFold(line, echo, es, outputs, s[..|s| - 1]);
    }
  }

  /** Feeding two chunks one after the other is feeding their concatenation. */
  lemma FeedConcat<H>(line: string, echo: bool, es: seq<Entry<H>>, outputs: seq<Port>, s: string, t: string)
    ensures var first := Feed(line, echo, es, outputs, s);
            var second := Feed(first.0, echo, es, outputs, t);
            Feed(line, echo, es, outputs, s + t) == (second.0, first.1 + second.1)
  {
    var f := (l, c) => Step(l, echo, es, outputs, c);
    FeedIsFold(line, echo, es, outputs, s);
    FeedIsFold(line, echo, es, outputs, s + t);
    FeedIsFold(Feed(line, echo, es, outputs, s).0, echo, es, outputs, t);
    FoldConcat(f, line, s, t);
  }

  /** Typing a printable character and then erasing it leaves the buffer as it was. */
  lemma TypeThenErase<H>(line: string, echo: bool, es: seq<Entry<H>>, outputs: seq<Port>, s: string, c: char)
    requires IsPrintable(c)
    ensures Feed(line, echo, es, outputs, s + [c, BS]).0 == Feed(line, echo, es, outputs, s).0
  {
    FeedConcat(line, echo, es, outputs, s, [c, BS]);
    var l := Feed(line, echo, es, outputs, s).0;
    assert [c, BS][..1] == [c];
    assert [c][..0] == [];
    assert Feed(l, echo, es, outputs, [c]).0 == l + [c];
    assert (l + [c])[..|l + [c]| - 1] == l;
    assert Feed(l, echo, es, outputs, [c, BS]).0 == Step(l + [c], echo, es, outputs, BS).0;
  }

  /** Typing "ab", a backspace, "c" leaves "ac" in the buffer, which LF then dispatches. */
  lemma TypedLineExample<H>(echo: bool, es: seq<Entry<H>>, outputs: seq<Port>, a: char, b: char, c: char)
    requires a == 'a' && b == 'b' && c == 'c'
    ensures Feed([], echo, es, outputs, [a, b, BS, c]).0 == [a, c]
  {
    TypeThenErase([], echo, es, outputs, [a], b);
    FeedConcat([], echo, es, outputs, [a, b, BS], [c]);
    assert [a] + [b, BS] == [a, b, BS];
    assert [a, b, BS] + [c] == [a, b, BS, c];
    assert Feed([], echo, es, outputs, [a]).0 == [a] by {
      assert [a][..0] == [];
    }
    assert [c][..0] == [];
  }

  /** Every key has a space in it, so no line ever names a handler. */
  predicate MultiWordKeys<H>(es: seq<Entry<H>>) {
    forall i :: 0 <= i < |es| ==> ' ' in es[i].key
  }

  /** Registering a key with a space in it keeps every key multi-word. */
  lemma InsertMultiWord<H>(es: seq<Entry<H>>, e: Entry<H>)
    requires MultiWordKeys(es) && ' ' in e.key
    ensures MultiWordKeys(Insert(es, e))
  {
    forall i | 0 <= i < |Insert(es, e)| ensures ' ' in Insert(es, e)[i].key {
      InsertKeys(es, e, i);
    }
  }

  /** Only outputs, to attached ports. */
  predicate OutputsOnly<H>(evs: seq<Event<H>>, outputs: seq<Port>) {
    forall i :: 0 <= i < |evs| ==> evs[i].Output? && evs[i].port in outputs
  }

  lemma {:induction false} BroadcastAllOutputsOnly<H>(outputs: seq<Port>, texts: seq<string>)
    ensures OutputsOnly(BroadcastAll<H>(outputs, texts), outputs)
    decreases |texts|
  {
    if texts != [] {
      BroadcastAllOutputsOnly<H>(outputs, texts[..|texts| - 1]);
    }
  }

  lemma ActionEventsOutputsOnly<H>(a: Action<H>, es: seq<Entry<H>>, outputs: seq<Port>)
    requires !a.Run?
    ensures OutputsOnly(ActionEvents(a, es, outputs), outputs)
  {
    if a.ShowHelp? {
      BroadcastAllOutputsOnly<H>(outputs, HelpTexts(es));
    }
  }

  lemma OutputsOnlyConcat<H>(a: seq<Event<H>>, b: seq<Event<H>>, outputs: seq<Port>)
    requires OutputsOnly(a, outputs) && OutputsOnly(b, outputs)
    ensures OutputsOnly(a + b, outputs)
  {
  }

  /** Against a table of multi-word keys, one step only ever prints, and only to the attached outputs. */
  lemma StepNoCalls<H>(line: string, echo: bool, es: seq<Entry<H>>, outputs: seq<Port>, c: char)
    requires MultiWordKeys(es)
    ensures OutputsOnly(Step(line, echo, es, outputs, c).1, outputs)
  {
    var echoed: seq<Event<H>> := if echo then Broadcast(outputs, [c]) else [];
    assert OutputsOnly(echoed, outputs);
    if c == '\n' {
      var a := Dispatch(line, es);
      MultiWordKeysNeverRun(line, es);
      ActionEventsOutputsOnly(a, es, outputs);
      var nl: seq<Event<H>> := Broadcast(outputs, "\n");
      var pr: seq<Event<H>> := Broadcast(outputs, Prompt);
      OutputsOnlyConcat(echoed, nl, outputs);
      OutputsOnlyConcat(echoed + nl, ActionEvents(a, es, outputs), outputs);
      OutputsOnlyConcat(echoed + nl + ActionEvents(a, es, outputs), pr, outputs);
      assert Step(line, echo, es, outputs, c).1 == echoed + nl + ActionEvents(a, es, outputs) + pr;
    }
  }

  /** So does any input: the bridge's CLI never runs a handler. */
  lemma {:induction false} FeedNoCalls<H>(line: string, echo: bool, es: seq<Entry<H>>, outputs: seq<Port>, s: string)
    requires MultiWordKeys(es)
    ensures OutputsOnly(Feed(line, echo, es, outputs, s).1, outputs)
    decreases |s|
  {
    if s != [] {
      FeedNoCalls(line, echo, es, outputs, s[..|s| - 1]);
      StepNoCalls(Feed(line, echo, es, outputs, s[..|s| - 1]).0, echo, es, outputs, s[|s| - 1]);
    }
  }

  /** The writes that a list of output events makes, in order. */
  function Deliver<H>(w: Writes, evs: seq<Event<H>>): Writes
    requires forall i :: 0 <= i < |evs| ==> evs[i].Output?
    decreases |evs|
  {
    if evs == [] then w
    else
      var last := evs[|evs| - 1];
      Emit(Deliver(w, evs[..|evs| - 1]), last.port, last.text)
  }

  /** Delivering more events only appends to what a port received. */
  lemma {:induction false} DeliverExtends<H>(w: Writes, evs: seq<Event<H>>, p: Port)
    requires forall i :: 0 <= i < |evs| ==> evs[i].Output?
    ensures To(w, p) <= To(Deliver(w, evs), p)
    decreases |evs|
  {
    if evs != [] {
      DeliverExtends(w, evs[..|evs| - 1], p);
    }
  }

  /** Delivering one `bufferOutput` writes the text to each output in turn. */
  lemma {:induction false} DeliverBroadcast<H>(w: Writes, outputs: seq<Port>, s: string)
    ensures Deliver(w, Broadcast<H>(outputs, s)) == EmitAll(w, outputs, s)
    decreases |outputs|
  {
    if outputs != [] {
      var init := outputs[..|outputs| - 1];
      var b := Broadcast<H>(outputs, s);
      assert b[..|b| - 1] == Broadcast<H>(init, s);
      DeliverBroadcast<H>(w, init, s);
    }
  }

  /** A port that no event names receives nothing. */
  lemma {:induction false} DeliverOtherPort<H>(w: Writes, evs: seq<Event<H>>, p: Port)
    requires forall i :: 0 <= i < |evs| ==> evs[i].Output? && evs[i].port != p
    ensures To(Deliver(w, evs), p) == To(w, p)
    decreases |evs|
  {
    if evs != [] {
      DeliverOtherPort(w, evs[..|evs| - 1], p);
    }
  }

  // ---------------------------------------------------------------------------
  // The objects
  // ---------------------------------------------------------------------------

  /** `MultiOutputStream`: the attached outputs, in attachment order. */
  class MultiOutputStream {
    var outputs: seq<Port>

    /** `MultiOutputStream() = default`: no outputs. */
    constructor ()
      ensures outputs == []
    {
      outputs := [];
    }

    /** `outputs()`. */
    function Outputs(): (r: seq<Port>)
      reads this
    {
      outputs
    }

    /** `addOutput(out)`: appended after the earlier outputs. */
    method AddOutput(out: Port)
      modifies this
      ensures outputs == old(outputs) + [out]
    {
      outputs := outputs + [out];
    }

    /** `clearOutputs()`. */
    method ClearOutputs()
      modifies this
      ensures outputs == []
    {
      outputs := [];
    }

    /** `write(c)`: c to every output; each output takes it, so the total is the number of outputs. */
    method WriteChar(c: char, w0: Writes) returns (total: nat, w: Writes)
      ensures total == |outputs|
      ensures forall q :: To(w, q) == To(w0, q) + Repeat([c], multiset(outputs)[q])
    {
      total := 0;
      w := w0;
      for i := 0 to |outputs|
        invariant total == i
        invariant w == EmitAll(w0, outputs[..i], [c])
      {
        assert outputs[..i + 1][..i] == outputs[..i];
        w := Emit(w, outputs[i], [c]);
        total := total + 1;
      }
      assert outputs[..|outputs|] == outputs;
      forall q {
        EmitAllContents(w0, outputs, [c], q);
      }
    }

    /**
     * `write(buffer, size)`: the buffer to every output in turn; each takes
     * all of it, so the total is the buffer length times the number of outputs.
     */
    method Write(buffer: seq<char>, w0: Writes) returns (total: nat, w: Writes)
      ensures total == |outputs| * |buffer|
      ensures forall q :: To(w, q) == To(w0, q) + Repeat(buffer, multiset(outputs)[q])
    {
      total := 0;
      w := w0;
      for i := 0 to |outputs|
        invariant total == i * |buffer|
        invariant w == EmitAll(w0, outputs[..i], buffer)
      {
        assert outputs[..i + 1][..i] == outputs[..i];
        w := Emit(w, outputs[i], buffer);
        total := total + |buffer|;
      }
      assert outputs[..|outputs|] == outputs;
      forall q {
        EmitAllContents(w0, outputs, buffer, q);
      }
    }
  }

  /**
   * `MenuCLI`. `H` is the handler type, `X` the exit callback type. The
   * header's `char _lineBuffer[128]` and `_lineLen` are not what the code
   * uses: it treats `_lineBuffer` as a growable text, so here it is one.
   */
  class MenuCli<H, X> {
    var lineBuffer: string
    var echoEnabled: bool
    var commands: seq<Entry<H>>
    const multiOutput: MultiOutputStream
    var onExit: Option<X>

    ghost predicate Valid()
      reads this
    {
      Sorted(commands)
    }

    /** The field defaults: empty buffer, echo on, no commands, no outputs, no exit callback. */
    constructor ()
      ensures Valid()
      ensures lineBuffer == [] && echoEnabled && commands == [] && onExit == None
      ensures fresh(multiOutput) && multiOutput.outputs == []
    {
      lineBuffer := [];
      echoEnabled := true;
      commands := [];
      multiOutput := new MultiOutputStream();
      onExit := None;
    }

    /** `attachOutput(out)`. */
    method AttachOutput(out: Port)
      modifies multiOutput
      ensures multiOutput.outputs == old(multiOutput.outputs) + [out]
    {
      multiOutput.AddOutput(out);
    }

    /** `isEchoEnabled()`. */
    function IsEchoEnabled(): bool
      reads this
    {
      echoEnabled
    }

    /** `setEcho(enabled)`: afterwards `isEchoEnabled()` answers `enabled`. */
    method SetEcho(enabled: bool)
      modifies this`echoEnabled
      ensures IsEchoEnabled() == enabled
    {
      echoEnabled := enabled;
    }

    /** `setOnExit(cb)`: the only writer of `_onExit`. */
    method SetOnExit(cb: X)
      modifies this`onExit
      ensures onExit == Some(cb)
    {
      onExit := Some(cb);
    }

    /** `registerCommand(cmd, help, handler)`: the key now finds this entry, every other key what it found before. */
    method RegisterCommand(cmd: string, help: string, handler: H)
      requires Valid()
      modifies this`commands
      ensures Valid()
      ensures commands == Insert(old(commands), Entry(cmd, help, handler))
      ensures forall k :: Find(commands, k) == if k == cmd then Some(Entry(cmd, help, handler)) else Find(old(commands), k)
    {
      var e := Entry(cmd, help, handler);
      InsertSorted(commands, e);
      forall k {
        FindInsert(commands, e, k);
      }
      commands := Insert(commands, e);
    }

    /** `bufferOutput(s)`: s printed on every attached output in turn. */
    method BufferOutput(s: string) returns (evs: seq<Event<H>>)
      ensures evs == Broadcast(multiOutput.outputs, s)
    {
      var outs := multiOutput.Outputs();
      evs := [];
      for i := 0 to |outs|
        invariant evs == Broadcast(outs[..i], s)
      {
        evs := evs + [Output(outs[i], s)];
      }
      assert outs[..|outs|] == outs;
    }

    /** `bufferOutputChar(c)`. */
    method BufferOutputChar(c: char) returns (evs: seq<Event<H>>)
      ensures evs == Broadcast(multiOutput.outputs, [c])
    {
      evs := BufferOutput([c]);
    }

    /** `printPrompt()`. */
    method PrintPrompt() returns (evs: seq<Event<H>>)
      ensures evs == Broadcast(multiOutput.outputs, Prompt)
    {
      evs := BufferOutput(Prompt);
    }

    /** `printHelp()`: the heading, one line per command in key order, then `help` and `exit`. */
    method PrintHelp() returns (evs: seq<Event<H>>)
      ensures evs == BroadcastAll(multiOutput.outputs, HelpTexts(commands))
    {
      var outs := multiOutput.outputs;
      evs := BufferOutput(HelpHeading);
      HelpListingStart<H>(outs, commands);
      for i := 0 to |commands|
        invariant evs == BroadcastAll(outs, [HelpHeading] + EntryHelpLines(commands[..i]))
      {
        var line := "  " + commands[i].key + ": " + commands[i].help + "\n";
        var more := BufferOutput(line);
        HelpListingStep<H>(outs, commands, i);
        evs := evs + more;
      }
      assert commands[..|commands|] == commands;
      var more := BufferOutput(HelpHelpLine);
      evs := evs + more;
      more := BufferOutput(HelpExitLine);
      evs := evs + more;
      HelpListingEnd<H>(outs, commands);
    }

    /** `processLine()` on the current buffer; the buffer itself is left to the caller. */
    method ProcessLine() returns (evs: seq<Event<H>>)
      ensures evs == ActionEvents(Dispatch(lineBuffer, commands), commands, multiOutput.outputs)
    {
      var line := Trim(lineBuffer);
      if |line| == 0 {
        return [];
      }
      var spaceIdx := IndexOf(line, ' ');
      var cmd := if spaceIdx == -1 then line else line[..spaceIdx];
      var args := if spaceIdx == -1 then "" else line[spaceIdx + 1..];
      cmd := ToLower(cmd);
      assert Dispatch(lineBuffer, commands) == DispatchWord(cmd, args, commands);
      evs := RunCommand(cmd, args);
    }

    /** The part of `processLine` after the line is split: help, a handler, or the unknown-command message. */
    method RunCommand(cmd: string, args: string) returns (evs: seq<Event<H>>)
      ensures evs == ActionEvents(DispatchWord(cmd, args, commands), commands, multiOutput.outputs)
    {
      if cmd == "help" {
        evs := PrintHelp();
        return;
      }
      var it := Find(commands, cmd);
      if it.Some? {
        evs := [Call(it.value.handler, args)];
      } else {
        evs := BufferOutput(UnknownMessage);
      }
    }

    /** `begin()`: empties the buffer and prints the prompt. */
    method Begin() returns (evs: seq<Event<H>>)
      modifies this`lineBuffer
      ensures lineBuffer == []
      ensures evs == Broadcast(multiOutput.outputs, Prompt)
    {
      lineBuffer := [];
      evs := PrintPrompt();
    }

    /** `handleInputChar(c)`. */
    method HandleInputChar(c: char) returns (evs: seq<Event<H>>)
      modifies this`lineBuffer
      ensures (lineBuffer, evs) == Step(old(lineBuffer), echoEnabled, commands, multiOutput.outputs, c)
    {
      evs := [];
      if echoEnabled {
        evs := BufferOutputChar(c);
      }
      if c == '\r' {
        return;
      }
      if c == '\n' {
        var more := BufferOutput("\n");
        evs := evs + more;
        more := ProcessLine();
        evs := evs + more;
        lineBuffer := [];
        more := PrintPrompt();
        evs := evs + more;
        return;
      }
      if c == BS || c == DEL {
        if |lineBuffer| > 0 {
          lineBuffer := lineBuffer[..|lineBuffer| - 1];
          var more := BufferOutput(Erase);
          evs := evs + more;
        }
        return;
      }
      if IsPrintable(c) {
        lineBuffer := lineBuffer + [c];
        var more := BufferOutputChar(c);
        evs := evs + more;
      }
    }

    /** `write(c)`: one character handled; the result is 1. */
    method WriteByte(c: char) returns (n: nat, evs: seq<Event<H>>)
      modifies this`lineBuffer
      ensures n == 1
      ensures (lineBuffer, evs) == Step(old(lineBuffer), echoEnabled, commands, multiOutput.outputs, c)
    {
      evs := HandleInputChar(c);
      n := 1;
    }

    /** `write(buffer, size)`: the characters handled in order; the result is `size`. */
    method Write(buffer: seq<char>) returns (n: nat, evs: seq<Event<H>>)
      modifies this`lineBuffer
      ensures n == |buffer|
      ensures (lineBuffer, evs) == Feed(old(lineBuffer), echoEnabled, commands, multiOutput.outputs, buffer)
    {
      n := 0;
      evs := [];
      for i := 0 to |buffer|
        invariant n == i
        invariant (lineBuffer, evs) == Feed(old(lineBuffer), echoEnabled, commands, multiOutput.outputs, buffer[..i])
      {
        assert buffer[..i + 1][..i] == buffer[..i];
        var more := HandleInputChar(buffer[i]);
        evs := evs + more;
        n := n + 1;
      }
      assert buffer[..|buffer|] == buffer;
    }
  }
}
