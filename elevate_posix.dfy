/** Privilege elevation on POSIX systems (`l2_infrastructure/elevate/posix.py`):
    quoting a command line for the shell and for AppleScript, and replacing the
    running process with the first elevation tool that exists. */
module ElevatePosix {
  import opened Outcomes
  import Text

  // ---------------------------------------------------------------------------
  // quote_applescript
  // ---------------------------------------------------------------------------

  /** The characters `quote_applescript`'s table rewrites. */
  predicate IsSpecial(c: char) {
    c == '\n' || c == '\r' || c == '\t' || c == '"' || c == '\\'
  }

  /** The table lookup `charmap.get(char, char)`. */
  function EscapeChar(c: char): string {
    if c == '\n' then "\\n"
    else if c == '\r' then "\\r"
    else if c == '\t' then "\\t"
    else if c == '"' then "\\\""
    else if c == '\\' then "\\\\"
    else [c]
  }

  /** How many characters of `s` the table rewrites. */
  function SpecialCount(s: string): nat {
    if s == [] then 0 else (if IsSpecial(s[0]) then 1 else 0) + SpecialCount(s[1..])
  }

  /** The joined lookups, between the quotes. Each rewritten character grows by
      one; every other character is kept. */
  function Escape(s: string): (r: string)
    ensures |r| == |s| + SpecialCount(s)
  {
    if s == [] then "" else EscapeChar(s[0]) + Escape(s[1..])
  }

  /** `quote_applescript(string)`: an AppleScript string literal. */
  function QuoteAppleScript(s: string): (r: string)
    ensures |r| == |s| + 2 + SpecialCount(s)
    ensures r[0] == '"' && r[|r| - 1] == '"'
    ensures r[1..|r| - 1] == Escape(s)
  {
    "\"" + Escape(s) + "\""
  }

  /** AppleScript's reading of an escaped string body: a backslash and the
      character after it stand for one character; a bare quote or backslash
      cannot occur. */
  function Unescape(t: string): (r: Option<string>)
    decreases |t|
  {
    if t == [] then Some("")
    else if t[0] == '"' then None
    else if t[0] != '\\' then
      match Unescape(t[1..])
      case Some(rest) => Some([t[0]] + rest)
      case None => None
    else if |t| < 2 then None
    else
      var c :=
        if t[1] == 'n' then Some('\n')
        else if t[1] == 'r' then Some('\r')
        else if t[1] == 't' then Some('\t')
        else if t[1] == '"' then Some('"')
        else if t[1] == '\\' then Some('\\')
        else None;
      match (c, Unescape(t[2..]))
      case (Some(x), Some(rest)) => Some([x] + rest)
      case _ => None
  }

  /** Reading back an escaped body gives the original text. */
  lemma {:induction false} UnescapeEscape(s: string)
    ensures Unescape(Escape(s)) == Some(s)
  {
    if s != [] {
      UnescapeEscape(s[1..]);
      var t := Escape(s);
      assert t == EscapeChar(s[0]) + Escape(s[1..]);
      if IsSpecial(s[0]) {
        assert t[0] == '\\' && t[2..] == Escape(s[1..]);
        if s[0] == '\n' {
          assert t[1] == 'n';
        } else if s[0] == '\r' {
          assert t[1] == 'r';
        } else if s[0] == '\t' {
          assert t[1] == 't';
        } else if s[0] == '"' {
          assert t[1] == '"';
        } else {
          assert t[1] == '\\';
        }
        assert Unescape(t) == Some([s[0]] + s[1..]);
        assert [s[0]] + s[1..] == s;
      } else {
        assert EscapeChar(s[0]) == [s[0]];
        assert t[0] == s[0] && t[1..] == Escape(s[1..]);
        assert Unescape(t) == Some([s[0]] + s[1..]);
        assert [s[0]] + s[1..] == s;
      }
    }
  }

  /** Different texts quote differently. */
  lemma QuoteAppleScriptInjective(a: string, b: string)
    requires QuoteAppleScript(a) == QuoteAppleScript(b)
    ensures a == b
  {
    UnescapeEscape(a);
    UnescapeEscape(b);
  }

  /** An escaped body in which every quote and backslash belongs to an escape
      pair. */
  predicate WellEscaped(t: string)
    decreases |t|
  {
    t == [] ||
    (t[0] == '\\' && |t| >= 2 && WellEscaped(t[2..])) ||
    (t[0] != '\\' && t[0] != '"' && WellEscaped(t[1..]))
  }

  lemma {:induction false} EscapeIsWellEscaped(s: string)
    ensures WellEscaped(Escape(s))
  {
    if s != [] {
      EscapeIsWellEscaped(s[1..]);
      var t := Escape(s);
      assert t == EscapeChar(s[0]) + Escape(s[1..]);
      if IsSpecial(s[0]) {
        assert t[2..] == Escape(s[1..]);
      } else {
        assert t[1..] == Escape(s[1..]);
      }
    }
  }

  /** In a well escaped body, a quote never stands alone: the character before it
      is the backslash that escapes it. */
  lemma {:induction false} QuotesAreEscaped(t: string)
    requires WellEscaped(t)
    ensures forall i :: 0 <= i < |t| && t[i] == '"' ==> i > 0 && t[i - 1] == '\\'
  {
    if t != [] {
      if t[0] == '\\' && |t| >= 2 && WellEscaped(t[2..]) {
        QuotesAreEscaped(t[2..]);
        forall i | 2 <= i < |t| && t[i] == '"' ensures t[i - 1] == '\\' {
          assert t[2..][i - 2] == t[i];
        }
      } else {
        QuotesAreEscaped(t[1..]);
        forall i | 1 <= i < |t| && t[i] == '"' ensures t[i - 1] == '\\' {
          assert t[1..][i - 1] == t[i];
        }
      }
    }
  }

  /** Inside the quotes of `quote_applescript`'s output, every quote is escaped. */
  lemma QuotedBodyHasOnlyEscapedQuotes(s: string)
    ensures var body := QuoteAppleScript(s)[1..|QuoteAppleScript(s)| - 1];
      forall i :: 0 <= i < |body| && body[i] == '"' ==> i > 0 && body[i - 1] == '\\'
  {
    EscapeIsWellEscaped(s);
    QuotesAreEscaped(Escape(s));
  }

  // ---------------------------------------------------------------------------
  // quote_shell
  // ---------------------------------------------------------------------------

  /** `quote_shell(args)`: each argument quoted by `quote` (shlex's, not part of
      this model), joined with single spaces. */
  function QuoteShell(args: seq<string>, quote: string -> string): string {
    Text.JoinWith(seq(|args|, i requires 0 <= i < |args| => quote(args[i])), " ")
  }

  /** One more argument adds one space and its quote at the end. */
  lemma QuoteShellAppend(args: seq<string>, a: string, quote: string -> string)
    requires args != []
    ensures QuoteShell(args + [a], quote) == QuoteShell(args, quote) + " " + quote(a)
  {
    var qs := seq(|args|, i requires 0 <= i < |args| => quote(args[i]));
    assert seq(|args + [a]|, i requires 0 <= i < |args + [a]| => quote((args + [a])[i])) == qs + [quote(a)];
    Text.JoinWithAppend(qs, quote(a), " ");
  }

  /** A single argument is just its quote. */
  lemma QuoteShellSingle(a: string, quote: string -> string)
    ensures QuoteShell([a], quote) == quote(a)
  {
    assert seq(1, i requires 0 <= i < 1 => quote([a][i])) == [quote(a)];
  }

  // ---------------------------------------------------------------------------
  // elevate
  // ---------------------------------------------------------------------------

  /** `s.startswith(prefix)`. */
  predicate StartsWith(s: string, prefix: string) {
    |prefix| <= |s| && s[..|prefix|] == prefix
  }

  /** `os.environ.get("DISPLAY")` is truthy: set and not empty. */
  predicate DisplaySet(display: Option<string>) {
    display.Some? && display.value != ""
  }

  /** The macOS candidate: the quoted command line run by `do shell script` with
      administrator privileges. */
  function OsascriptCommand(args: seq<string>, quote: string -> string): seq<string> {
    ["osascript", "-e",
     "do shell script " + QuoteAppleScript(QuoteShell(args, quote)) +
     " with administrator privileges without altering line endings"]
  }

  /** A command whose program is `sudo`. */
  predicate IsSudo(command: seq<string>) {
    command != [] && command[0] == "sudo"
  }

  /** The commands `elevate` tries, in order, for the command line `args`
      (the interpreter followed by the script's arguments). */
  function Candidates(args: seq<string>, graphical: bool, platform: string, display: Option<string>,
                      quote: string -> string): (r: seq<seq<string>>)
    ensures |r| == 1 + (if graphical && StartsWith(platform, "darwin") then 1 else 0)
                     + (if graphical && StartsWith(platform, "linux") && DisplaySet(display) then 3 else 0)
    ensures r[|r| - 1] == ["sudo"] + args
    ensures forall i :: 0 <= i < |r| ==> r[i] != [] && (IsSudo(r[i]) <==> i == |r| - 1)
    ensures r[0][0] == "osascript" <==> graphical && StartsWith(platform, "darwin")
    ensures graphical && StartsWith(platform, "darwin") ==> r[0] == OsascriptCommand(args, quote)
    ensures graphical && StartsWith(platform, "linux") && DisplaySet(display) ==>
      r[|r| - 4..|r| - 1] == [["pkexec"] + args, ["gksudo"] + args, ["kdesudo"] + args]
  {
    DarwinIsNotLinux(platform);
    Assemble(args, graphical && StartsWith(platform, "darwin"),
             graphical && StartsWith(platform, "linux") && DisplaySet(display), OsascriptCommand(args, quote))
  }

  /** No platform name starts with both `darwin` and `linux`. */
  lemma DarwinIsNotLinux(platform: string)
    ensures !(StartsWith(platform, "darwin") && StartsWith(platform, "linux"))
  {
    if StartsWith(platform, "darwin") {
      assert platform[0] == "darwin"[0] == 'd' != "linux"[0];
    }
  }

  /** The candidate list once the platform tests are decided: the macOS command
      when `mac`, the three Linux tools when `linux`, and `sudo` last. */
  function Assemble(args: seq<string>, mac: bool, linux: bool, osascript: seq<string>): (r: seq<seq<string>>)
    requires !(mac && linux) && osascript != [] && osascript[0] == "osascript"
    ensures |r| == 1 + (if mac then 1 else 0) + (if linux then 3 else 0)
    ensures r[|r| - 1] == ["sudo"] + args
    ensures forall i :: 0 <= i < |r| ==> r[i] != [] && (IsSudo(r[i]) <==> i == |r| - 1)
    ensures r[0][0] == "osascript" <==> mac
    ensures mac ==> r[0] == osascript
    ensures linux ==> r[|r| - 4..|r| - 1] == [["pkexec"] + args, ["gksudo"] + args, ["kdesudo"] + args]
  {
    (if mac then [osascript] else []) +
    (if linux then [["pkexec"] + args, ["gksudo"] + args, ["kdesudo"] + args] else []) +
    [["sudo"] + args]
  }

  /** What `os.execlp` does with a command: replace the process, or fail with
      an errno. */
  datatype ExecOutcome = Replaced | Failed(errno: int)

  /** How `elevate` ends: nothing to do as root, the process replaced by a
      command, or an OSError raised. */
  datatype Elevation = AlreadyRoot | ReplacedBy(command: seq<string>) | Raised(error: Error)

  /** The `commands` list of `elevate`, built by appending. */
  method BuildCommands(args: seq<string>, graphical: bool, platform: string, display: Option<string>,
                       quote: string -> string)
    returns (commands: seq<seq<string>>)
    ensures commands == Candidates(args, graphical, platform, display, quote)
  {
    ghost var mac := graphical && StartsWith(platform, "darwin");
    ghost var linux := graphical && StartsWith(platform, "linux") && DisplaySet(display);
    ghost var front := if mac then [OsascriptCommand(args, quote)] else [];
    commands := [];
    if graphical {
      if StartsWith(platform, "darwin") {
        commands := commands + [OsascriptCommand(args, quote)];
      }
      assert commands == front;
      if StartsWith(platform, "linux") && DisplaySet(display) {
        commands := commands + [["pkexec"] + args];
        commands := commands + [["gksudo"] + args];
        commands := commands + [["kdesudo"] + args];
      }
    }
    assert commands == front + (if linux then [["pkexec"] + args, ["gksudo"] + args, ["kdesudo"] + args] else []);
    commands := commands + [["sudo"] + args];
  }

  /** The `for` loop of `elevate` over `commands`, whose last and only `sudo`
      entry ends it whatever exec does. */
  method TryInOrder(commands: seq<seq<string>>, exec: seq<string> -> ExecOutcome)
    returns (r: Elevation, tried: seq<seq<string>>)
    requires commands != [] && IsSudo(commands[|commands| - 1])
    ensures 0 < |tried| <= |commands| && tried == commands[..|tried|]
    ensures forall i :: 0 <= i < |tried| - 1 ==> exec(tried[i]) == Failed(ENOENT) && !IsSudo(tried[i])
    ensures exec(tried[|tried| - 1]).Replaced? ==> r == ReplacedBy(tried[|tried| - 1])
    ensures exec(tried[|tried| - 1]).Failed? ==>
      r == Raised(OSError(exec(tried[|tried| - 1]).errno)) &&
      (exec(tried[|tried| - 1]).errno != ENOENT || IsSudo(tried[|tried| - 1]))
  {
    tried := [];
    var i := 0;
    while i < |commands|
      invariant 0 <= i <= |commands| && tried == commands[..i]
      invariant forall j :: 0 <= j < i ==> exec(commands[j]) == Failed(ENOENT) && !IsSudo(commands[j])
    {
      var command := commands[i];
      tried := tried + [command];
      match exec(command)
      case Replaced =>
        return ReplacedBy(command), tried;
      case Failed(errno) =>
        if errno != ENOENT || IsSudo(command) {
          return Raised(OSError(errno)), tried;
        }
      i := i + 1;
    }
    assert false;
  }

  /** `elevate(graphical, with_args)`. The user id, the interpreter path,
      `sys.argv`, the platform, `DISPLAY`, shlex's quote and exec are
      parameters. Candidates are tried in order; a candidate that is not found
      (ENOENT) passes to the next, except `sudo`, the last; any other failure is
      raised at once. */
  method Elevate(uid: int, python: string, argv: seq<string>, graphical: bool, withArgs: Option<seq<string>>,
                 platform: string, display: Option<string>, quote: string -> string,
                 exec: seq<string> -> ExecOutcome)
    returns (r: Elevation, tried: seq<seq<string>>)
    ensures uid == 0 ==> r == AlreadyRoot && tried == []
    ensures uid != 0 ==>
      var commands := Candidates([python] + withArgs.GetOr(argv), graphical, platform, display, quote);
      0 < |tried| <= |commands| && tried == commands[..|tried|] &&
      (forall i :: 0 <= i < |tried| - 1 ==> exec(tried[i]) == Failed(ENOENT) && !IsSudo(tried[i])) &&
      var last := tried[|tried| - 1];
      (exec(last).Replaced? ==> r == ReplacedBy(last)) &&
      (exec(last).Failed? ==> r == Raised(OSError(exec(last).errno)) &&
                              (exec(last).errno != ENOENT || IsSudo(last)))
  {
    if uid == 0 {
      return AlreadyRoot, [];
    }
    var args := [python] + withArgs.GetOr(argv);
    var commands := BuildCommands(args, graphical, platform, display, quote);
    r, tried := TryInOrder(commands, exec);
  }
}
