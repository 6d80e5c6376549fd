/**
  Line tokenising of UnicornDbg.parse_command: `text.split(' ')`, the first
  token is the command name and the rest are its arguments. Splitting on a
  single space keeps empty tokens, so two consecutive spaces give an empty
  argument and the empty line gives the single empty token.
 */
module Tokenizer {

  /** `s.split(' ')` */
  function Split(s: string): (tokens: seq<string>)
    ensures |tokens| >= 1
    ensures forall i :: 0 <= i < |tokens| ==> ' ' !in tokens[i]
    ensures Join(tokens) == s
  {
    if |s| == 0 then [""]
    else
      var rest := Split(s[1..]);
      if s[0] == ' ' then
        assert [""] + rest == [""] + [rest[0]] + rest[1..];
        [""] + rest
      else
        assert [s[0]] + s[1..] == s;
        assert rest == [rest[0]] + rest[1..];
        JoinCons(s[0], rest[0], rest[1..]);
        [[s[0]] + rest[0]] + rest[1..]
  }

  /** `' '.join(tokens)` for a non-empty list of tokens. */
  function Join(tokens: seq<string>): string
    requires |tokens| >= 1
  {
    if |tokens| == 1 then tokens[0] else tokens[0] + " " + Join(tokens[1..])
  }

  /** Prefixing a character to the first token prefixes it to the joined line. */
  lemma JoinCons(c: char, first: string, rest: seq<string>)
    ensures Join([[c] + first] + rest) == [c] + Join([first] + rest)
  {
    var a, b := [[c] + first] + rest, [first] + rest;
    assert a[0] == [c] + first && a[1..] == rest;
    assert b[0] == first && b[1..] == rest;
    if |rest| > 0 {
      var r := Join(rest);
      assert ([c] + first) + " " + r == [c] + (first + " " + r);
    }
  }

  /** Splitting undoes joining: a token list without spaces is recovered from its line. */
  lemma {:induction false} SplitJoin(tokens: seq<string>)
    requires |tokens| >= 1
    requires forall i :: 0 <= i < |tokens| ==> ' ' !in tokens[i]
    ensures Split(Join(tokens)) == tokens
    decreases |tokens|, |tokens[0]|
  {
    var t := tokens[0];
    if |t| == 0 {
      if |tokens| > 1 {
        var line := Join(tokens);
        assert line == " " + Join(tokens[1..]);
        assert line[1..] == Join(tokens[1..]);
        SplitJoin(tokens[1..]);
        assert tokens == [""] + tokens[1..];
      }
    } else {
      var shorter := [t[1..]] + tokens[1..];
      assert shorter[1..] == tokens[1..];
      forall i | 0 <= i < |shorter| ensures ' ' !in shorter[i] {
        if i == 0 {
          assert forall c :: c in t[1..] ==> c in t;
        } else {
          assert shorter[i] == tokens[i];
        }
      }
      SplitJoin(shorter);
      assert [t[0]] + t[1..] == t;
      JoinCons(t[0], t[1..], tokens[1..]);
      assert [[t[0]] + t[1..]] + tokens[1..] == tokens;
      var line := Join(tokens);
      assert line == [t[0]] + Join(shorter);
      assert line[0] == t[0] && line[1..] == Join(shorter);
      assert t[0] != ' ' by { assert t[0] in t; }
      assert Split(line[1..]) == shorter;
      assert Split(line) == [[t[0]] + shorter[0]] + shorter[1..];
    }
  }

  /** A command line as parse_command hands it to exec_command. */
  datatype CommandLine = CommandLine(command: string, args: seq<string>)

  /**
    `command_arr = text.split(' ')`, `command = command_arr[0]`,
    `args = command_arr[1:]`.
   */
  function ParseCommand(text: string): (line: CommandLine)
    ensures ' ' !in line.command
    ensures forall i :: 0 <= i < |line.args| ==> ' ' !in line.args[i]
    ensures Join([line.command] + line.args) == text
  {
    var tokens := Split(text);
    assert [tokens[0]] + tokens[1..] == tokens;
    CommandLine(tokens[0], tokens[1..])
  }

  /** ParseCommand is the inverse of writing the command and its arguments separated by single spaces. */
  lemma ParseUnparse(line: CommandLine)
    requires ' ' !in line.command
    requires forall i :: 0 <= i < |line.args| ==> ' ' !in line.args[i]
    ensures ParseCommand(Join([line.command] + line.args)) == line
  {
    var tokens := [line.command] + line.args;
    assert forall i :: 0 < i < |tokens| ==> tokens[i] == line.args[i - 1];
    SplitJoin(tokens);
    assert tokens[1..] == line.args;
  }
}
