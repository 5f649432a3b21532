/** `secureEye set`: the second writer of config.ini, which finds options by key alone. */
module ConfigSet {
  import opened Text
  import opened IniLine
  import opened IniSpec
  import opened Options
  import P = IniPatch
  import T = IniTheorem

  // ----- reading and writing whole lines -----

  function Terminated(lines: seq<string>, newlineAtEnd: bool): (r: seq<string>)
    ensures |r| == |lines|
  {
    seq(|lines|, i requires 0 <= i < |lines| => lines[i] + if i < |lines| - 1 || newlineAtEnd then "\n" else "")
  }

  /** readlines(): every line with its terminator. */
  function ReadLines(contents: string): seq<string> {
    Terminated(Lines(contents), EndsWithNewline(contents))
  }

  function Concat(pieces: seq<string>): string {
    if pieces == [] then "" else pieces[0] + Concat(pieces[1..])
  }

  lemma {:induction false} ConcatTerminated(lines: seq<string>, newlineAtEnd: bool)
    requires lines != []
    ensures Concat(Terminated(lines, newlineAtEnd)) == Join(lines) + if newlineAtEnd then "\n" else ""
  {
    var pieces := Terminated(lines, newlineAtEnd);
    if |lines| == 1 {
      assert pieces[1..] == [];
    } else {
      assert pieces[1..] == Terminated(lines[1..], newlineAtEnd);
      ConcatTerminated(lines[1..], newlineAtEnd);
      assert pieces[0] == lines[0] + "\n";
    }
  }

  /** Reading the lines of a file loses nothing. */
  lemma ReadLinesIsWhole(contents: string)
    ensures Concat(ReadLines(contents)) == contents
  {
    if contents != "" {
      JoinSplit(contents);
      if EndsWithNewline(contents) {
        var text := contents[..|contents| - 1];
        assert contents == text + "\n";
        SplitSnocNewline(text);
        JoinSplit(text);
      }
      ConcatTerminated(Lines(contents), EndsWithNewline(contents));
    }
  }

  // ----- which option a line sets -----

  /** Name i, followed by a space, starts the line, and no earlier name does. */
  predicate IsFirstMatch(line: string, names: seq<string>, i: nat)
    requires i < |names|
  {
    names[i] + " " <= line && forall j :: 0 <= j < i ==> !(names[j] + " " <= line)
  }

  /** The first of the requested names that, followed by a space, starts the line. */
  function OptionName(line: string, names: seq<string>): (r: Option<string>)
    ensures r.Some? ==> r.value in names && r.value + " " <= line
    ensures r.Some? ==> exists i :: 0 <= i < |names| && IsFirstMatch(line, names, i) && names[i] == r.value
    ensures r.None? ==> forall n :: n in names ==> !(n + " " <= line)
  {
    if names == [] then None
    else if names[0] + " " <= line then Some(names[0])
    else OptionName(line, names[1..])
  }

  /** The line the script writes for a requested name. */
  function NewLine(n: string, updates: map<string, string>): string
    requires n in updates
  {
    OptionStem(n) + updates[n] + "\n"
  }

  function SetLine(line: string, names: seq<string>, updates: map<string, string>): string
    requires forall n :: n in names ==> n in updates
  {
    match OptionName(line, names)
    case None => line
    case Some(n) => NewLine(n, updates)
  }

  function SetLines(lines: seq<string>, names: seq<string>, updates: map<string, string>): (r: seq<string>)
    requires forall n :: n in names ==> n in updates
    ensures |r| == |lines|
  {
    seq(|lines|, i requires 0 <= i < |lines| => SetLine(lines[i], names, updates))
  }

  predicate HasLineBreak(value: string) {
    '\n' in value || '\r' in value
  }

  /** dict(zip(...)): later pairs override, the first mention of a name keeps its place. */
  function Updates(arguments: seq<string>, n: nat): map<string, string>
    requires 2 * n <= |arguments|
  {
    if n == 0 then map[] else Updates(arguments, n - 1)[arguments[2 * n - 2] := arguments[2 * n - 1]]
  }

  function Names(arguments: seq<string>, n: nat): (r: seq<string>)
    requires 2 * n <= |arguments|
    ensures forall x :: x in r <==> x in Updates(arguments, n)
  {
    if n == 0 then []
    else
      var before, name := Names(arguments, n - 1), arguments[2 * n - 2];
      if name in before then before else before + [name]
  }

  datatype Outcome = Failed(code: string) | Done(updated: map<string, string>)

  /** Why a request is refused, in the order the script checks. */
  function Refusal(contents: string, arguments: seq<string>): Option<string> {
    if |arguments| < 2 || |arguments| % 2 != 0 then Some("missing_argument")
    else
      RefusedFor(ReadLines(contents), Names(arguments, |arguments| / 2), Updates(arguments, |arguments| / 2))
  }

  function RefusedFor(lines: seq<string>, names: seq<string>, updates: map<string, string>): Option<string>
    requires forall n :: n in names ==> n in updates
  {
    if exists x :: x in names && HasLineBreak(updates[x]) then Some("invalid_value")
    else if exists x :: x in names && !IsFound(x, lines, names) then Some("unknown_option")
    else None
  }

  predicate IsFound(name: string, lines: seq<string>, names: seq<string>) {
    exists i :: 0 <= i < |lines| && OptionName(lines[i], names) == Some(name)
  }

  lemma NoneFound(lines: seq<string>, names: seq<string>)
    ensures forall name :: !IsFound(name, lines[..0], names)
  {
  }

  lemma FoundStep(name: string, lines: seq<string>, names: seq<string>, n: nat)
    requires n < |lines|
    ensures IsFound(name, lines[..n + 1], names) <==>
              IsFound(name, lines[..n], names) || OptionName(lines[n], names) == Some(name)
  {
    hide OptionName;
    assert lines[..n + 1] == lines[..n] + [lines[n]];
    if IsFound(name, lines[..n], names) {
      var i :| 0 <= i < n && OptionName(lines[..n][i], names) == Some(name);
      assert OptionName(lines[..n + 1][i], names) == Some(name);
    }
    if OptionName(lines[n], names) == Some(name) {
      assert OptionName(lines[..n + 1][n], names) == Some(name);
    }
  }

  /** Number k is the pair that first mentions the name, among the first n. */
  predicate FirstMentions(arguments: seq<string>, n: nat, name: string, k: nat)
    requires 2 * n <= |arguments|
  {
    k < n && arguments[2 * k] == name && forall j :: 0 <= j < k ==> arguments[2 * j] != name
  }

  predicate LastMentions(arguments: seq<string>, n: nat, name: string, k: nat)
    requires 2 * n <= |arguments|
  {
    k < n && arguments[2 * k] == name && forall j :: k < j < n ==> arguments[2 * j] != name
  }

  /** A name has the value it is last paired with, and none if it is in no pair. */
  lemma {:induction false} LastPairWins(arguments: seq<string>, n: nat, name: string)
    requires 2 * n <= |arguments|
    ensures forall k: nat :: LastMentions(arguments, n, name, k) ==>
              name in Updates(arguments, n) && Updates(arguments, n)[name] == arguments[2 * k + 1]
    ensures name in Updates(arguments, n) ==> exists k: nat :: LastMentions(arguments, n, name, k)
  {
    if n == 0 {
    } else {
      LastPairWins(arguments, n - 1, name);
      if name == arguments[2 * (n - 1)] {
        assert LastMentions(arguments, n, name, n - 1);
      } else {
        forall k: nat | LastMentions(arguments, n, name, k) ensures LastMentions(arguments, n - 1, name, k) {
        }
        if name in Updates(arguments, n - 1) {
          var k: nat :| LastMentions(arguments, n - 1, name, k);
          assert LastMentions(arguments, n, name, k);
        }
      }
    }
  }

  lemma {:induction false} NotMentioned(arguments: seq<string>, n: nat, name: string)
    requires 2 * n <= |arguments| && name !in Names(arguments, n)
    ensures forall j :: 0 <= j < n ==> arguments[2 * j] != name
  {
    if n == 0 {
    } else {
      NotMentioned(arguments, n - 1, name);
    }
  }

  lemma OneMoreName(arguments: seq<string>, n: nat)
    requires n > 0 && 2 * n <= |arguments|
    ensures var before, name := Names(arguments, n - 1), arguments[2 * n - 2];
            Names(arguments, n) == if name in before then before else before + [name]
  {
  }

  lemma StillFirst(arguments: seq<string>, n: nat, name: string, k: nat)
    requires 2 * n + 2 <= |arguments| && FirstMentions(arguments, n, name, k)
    ensures FirstMentions(arguments, n + 1, name, k)
  {
  }

  lemma FirstIsLast(arguments: seq<string>, n: nat)
    requires n > 0 && 2 * n <= |arguments| && arguments[2 * n - 2] !in Names(arguments, n - 1)
    ensures FirstMentions(arguments, n, arguments[2 * n - 2], n - 1)
  {
    hide Names;
    NotMentioned(arguments, n - 1, arguments[2 * n - 2]);
  }

  lemma {:induction false} FirstMentionOf(arguments: seq<string>, n: nat, name: string) returns (k: nat)
    requires 2 * n <= |arguments| && name in Names(arguments, n)
    ensures FirstMentions(arguments, n, name, k)
  {
    hide FirstMentions;
    if n == 0 {
    } else {
      hide Names;
      OneMoreName(arguments, n);
      if name in Names(arguments, n - 1) {
        k := FirstMentionOf(arguments, n - 1, name);
        StillFirst(arguments, n - 1, name, k);
      } else {
        k := n - 1;
        FirstIsLast(arguments, n);
      }
    }
  }

  ghost predicate InOrder(arguments: seq<string>, n: nat, first: string, second: string)
    requires 2 * n <= |arguments|
  {
    exists a: nat, b: nat :: a < b && FirstMentions(arguments, n, first, a) && FirstMentions(arguments, n, second, b)
  }

  lemma StillInOrder(arguments: seq<string>, n: nat, first: string, second: string)
    requires 2 * n + 2 <= |arguments| && InOrder(arguments, n, first, second)
    ensures InOrder(arguments, n + 1, first, second)
  {
    hide FirstMentions;
    var a: nat, b: nat :| a < b && FirstMentions(arguments, n, first, a) && FirstMentions(arguments, n, second, b);
    StillFirst(arguments, n, first, a);
    StillFirst(arguments, n, second, b);
  }

  lemma NewIsLater(arguments: seq<string>, n: nat, first: string)
    requires n > 0 && 2 * n <= |arguments| && first in Names(arguments, n - 1)
    requires arguments[2 * n - 2] !in Names(arguments, n - 1)
    ensures InOrder(arguments, n, first, arguments[2 * n - 2])
  {
    hide Names;
    var a := FirstMentionOf(arguments, n - 1, first);
    StillFirst(arguments, n - 1, first, a);
    FirstIsLast(arguments, n);
    assert a < n - 1;
  }

  /** The names stand in the order of their first mention. */
  lemma {:induction false} NamesInOrder(arguments: seq<string>, n: nat, i: nat, j: nat)
    requires 2 * n <= |arguments| && i < j < |Names(arguments, n)|
    ensures InOrder(arguments, n, Names(arguments, n)[i], Names(arguments, n)[j])
  {
    hide InOrder;
    if n == 0 {
    } else {
      hide Names;
      OneMoreName(arguments, n);
      var before := Names(arguments, n - 1);
      if j < |before| {
        NamesInOrder(arguments, n - 1, i, j);
        StillInOrder(arguments, n - 1, before[i], before[j]);
      } else {
        NewIsLater(arguments, n, before[i]);
      }
    }
  }

  /** The first reason that applies: arguments that are not pairs, a value with a line break, a name no line has. */
  lemma RefusedExactly(contents: string, arguments: seq<string>)
    ensures var paired := |arguments| > 0 && exists n :: |arguments| == 2 * n;
            && (Refusal(contents, arguments) == Some("missing_argument") <==> !paired)
            && (paired ==>
                  var names, updates := Names(arguments, |arguments| / 2), Updates(arguments, |arguments| / 2);
                  var broken := exists x :: x in names && ('\n' in updates[x] || '\r' in updates[x]);
                  var missing :=
                    exists x :: x in names
                                && forall line :: line in ReadLines(contents) ==> OptionName(line, names) != Some(x);
                  && (Refusal(contents, arguments) == Some("invalid_value") <==> broken)
                  && (Refusal(contents, arguments) == Some("unknown_option") <==> !broken && missing)
                  && (Refusal(contents, arguments) == None <==> !broken && !missing))
  {
    hide OptionName, ReadLines, Names, Updates;
    if exists n :: |arguments| == 2 * n {
      var n :| |arguments| == 2 * n;
      assert |arguments| % 2 == 0;
    } else {
      assert |arguments| != 2 * (|arguments| / 2);
    }
    hide Refusal, RefusedFor;
    if |arguments| >= 2 && |arguments| % 2 == 0 {
      RefusedForExactly(contents, arguments);
    } else {
      NotPaired(contents, arguments);
    }
  }

  lemma NotPaired(contents: string, arguments: seq<string>)
    requires |arguments| < 2 || |arguments| % 2 != 0
    ensures Refusal(contents, arguments) == Some("missing_argument")
  {
  }

  lemma RefusedForExactly(contents: string, arguments: seq<string>)
    requires |arguments| >= 2 && |arguments| % 2 == 0
    ensures var names, updates := Names(arguments, |arguments| / 2), Updates(arguments, |arguments| / 2);
            var broken := exists x :: x in names && ('\n' in updates[x] || '\r' in updates[x]);
            var missing :=
              exists x :: x in names
                          && forall line :: line in ReadLines(contents) ==> OptionName(line, names) != Some(x);
            && (Refusal(contents, arguments) == Some("invalid_value") <==> broken)
            && (Refusal(contents, arguments) == Some("unknown_option") <==> !broken && missing)
            && (Refusal(contents, arguments) == None <==> !broken && !missing)
            && Refusal(contents, arguments) != Some("missing_argument")
  {
    hide OptionName, ReadLines, Names, Updates;
    var lines, names := ReadLines(contents), Names(arguments, |arguments| / 2);
    forall x ensures IsFound(x, lines, names) <==> exists line :: line in lines && OptionName(line, names) == Some(x) {
      FoundIsIn(x, lines, names);
    }
  }

  lemma FoundIsIn(x: string, lines: seq<string>, names: seq<string>)
    ensures IsFound(x, lines, names) <==> exists line :: line in lines && OptionName(line, names) == Some(x)
  {
    hide OptionName;
    if line :| line in lines && OptionName(line, names) == Some(x) {
      var i :| 0 <= i < |lines| && lines[i] == line;
    }
  }

  class ConfigFile {
    var contents: string

    constructor (text: string)
      ensures contents == text
    {
      contents := text;
    }

    /** All or nothing: a refused request leaves the file as it was. */
    method Set(arguments: seq<string>) returns (outcome: Outcome)
      modifies this
      ensures Refusal(old(contents), arguments).Some? ==>
                outcome == Failed(Refusal(old(contents), arguments).value) && contents == old(contents)
      ensures Refusal(old(contents), arguments).None? ==>
                var n := |arguments| / 2;
                var names, updates := Names(arguments, n), Updates(arguments, n);
                outcome == Done(updates) && contents == Concat(SetLines(ReadLines(old(contents)), names, updates))
    {
      hide OptionName, SetLine, Names, Updates, Terminated, Concat, HasLineBreak, IsFound;
      if |arguments| < 2 || |arguments| % 2 != 0 {
        return Failed("missing_argument");
      }
      var updates, names := CollectUpdates(arguments);
      var broken := AnyLineBreak(names, updates);
      if broken {
        return Failed("invalid_value");
      }
      var lines := ReadLines(contents);
      var missing := AnyMissing(lines, names);
      if missing {
        return Failed("unknown_option");
      }
      var newLines := Rewrite(lines, names, updates);
      contents := Concat(newLines);
      return Done(updates);
    }

    static method AnyLineBreak(names: seq<string>, updates: map<string, string>) returns (broken: bool)
      requires forall n :: n in names ==> n in updates
      ensures broken <==> exists x :: x in names && HasLineBreak(updates[x])
    {
      for i := 0 to |names|
        invariant forall j :: 0 <= j < i ==> !HasLineBreak(updates[names[j]])
      {
        if HasLineBreak(updates[names[i]]) {
          return true;
        }
      }
      return false;
    }

    static method AnyMissing(lines: seq<string>, names: seq<string>) returns (missing: bool)
      ensures missing <==> exists x :: x in names && !IsFound(x, lines, names)
    {
      hide OptionName, IsFound;
      var found: set<string> := {};
      NoneFound(lines, names);
      for i := 0 to |lines|
        invariant forall x :: x in found <==> IsFound(x, lines[..i], names)
      {
        forall x ensures IsFound(x, lines[..i + 1], names) <==>
                           IsFound(x, lines[..i], names) || OptionName(lines[i], names) == Some(x)
        {
          FoundStep(x, lines, names, i);
        }
        var name := OptionName(lines[i], names);
        if name.Some? {
          found := found + {name.value};
        }
      }
      assert lines[..|lines|] == lines;
      for i := 0 to |names|
        invariant forall j :: 0 <= j < i ==> names[j] in found
      {
        if names[i] !in found {
          return true;
        }
      }
      return false;
    }

    static method Rewrite(lines: seq<string>, names: seq<string>, updates: map<string, string>)
      returns (newLines: seq<string>)
      requires forall n :: n in names ==> n in updates
      ensures newLines == SetLines(lines, names, updates)
    {
      newLines := [];
      for i := 0 to |lines|
        invariant |newLines| == i && forall j :: 0 <= j < i ==> newLines[j] == SetLine(lines[j], names, updates)
      {
        match OptionName(lines[i], names) {
          case None =>
            newLines := newLines + [lines[i]];
          case Some(name) =>
            newLines := newLines + [OptionStem(name) + updates[name] + "\n"];
        }
      }
    }

    static method CollectUpdates(arguments: seq<string>) returns (updates: map<string, string>, names: seq<string>)
      requires |arguments| % 2 == 0
      ensures updates == Updates(arguments, |arguments| / 2) && names == Names(arguments, |arguments| / 2)
    {
      updates, names := map[], [];
      for i := 0 to |arguments| / 2
        invariant updates == Updates(arguments, i) && names == Names(arguments, i)
      {
        var name := arguments[2 * i];
        if name !in updates {
          names := names + [name];
        }
        updates := updates[name := arguments[2 * i + 1]];
      }
    }
  }
}
