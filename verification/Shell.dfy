// One line of input, from its text to the processes it starts.
module Shell {
  import opened ShellLexer
  import opened ShellGrammar
  import opened ShellMeaning
  import opened ShellParser
  import opened ShellRunner
  import opened ShellWiring

  datatype Done = ChangeDirectory(path: string) | Started(outcomes: seq<Outcome>)

  /**
   * Handles line `s`.  Changing the directory happens in the shell itself,
   * which drops the last character of the line; anything else is parsed and
   * run by a child, so that the shell keeps its descriptors.
   */
  method RunLine(shell: Process, s: string, next: nat, opens: Redirection -> bool) returns (done: Done)
    requires '\0' !in s
    ensures done.ChangeDirectory? <==> "cd " <= s
    ensures s == "cd " ==> done.path == ""
    ensures "cd " < s ==> s == "cd " + done.path + [s[|s| - 1]]
    ensures done.Started? && ReadPipe(Lex(s)).Err? ==> done.outcomes == [Exited]
    ensures done.Started? && ReadPipe(Lex(s)).Ok? && StandardOpen(shell.fds) ==>
              && Wired(done.outcomes, Meanings(Segments(Lex(s))), shell.fds, next, opens)
              && |done.outcomes| >= |Segments(Lex(s))|
              && forall i :: 0 <= i < |Segments(Lex(s))| ==>
                   var segment := Segments(Lex(s))[i];
                   && (done.outcomes[i].Running? <==> Args(segment, false) != [] && AllOpen(Redirs(segment), opens))
                   && (done.outcomes[i].Running? ==>
                         && ConnectedBySigns(done.outcomes[i], segment, i, |Segments(Lex(s))|, shell.fds, next)
                         && (Input in segment ==> OpenedAs(done.outcomes[i], 0, ReadOnly))
                         && (Output in segment ==> OpenedAs(done.outcomes[i], 1, WriteCreateTruncate)))
  {
    if |s| >= 3 && s[0] == 'c' && s[1] == 'd' && s[2] == ' ' {
      return ChangeDirectory(if |s| > 3 then s[3..|s| - 1] else "");
    }
    hide Wired, Wire, Lex, ReadPipe, Segments, Meanings, ConnectedBySigns, Args, Redirs, AllOpen;
    var child := shell.Fork();
    var tree := ParseCmd(s);
    if tree.Err? {
      return Started([Exited]);
    }
    var cmd := Value(tree.value);
    LineWiring(s, shell.fds, next, opens);
    var outcomes := RunCmd(child, cmd, next, opens);
    if StandardOpen(shell.fds) {
      StagesEndUp(s, shell.fds, next, opens);
    }
    done := Started(outcomes);
  }
}
