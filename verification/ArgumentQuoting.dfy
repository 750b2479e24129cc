/** Quoting an argument for Windows (`quote_argument`), against the documented rules by which a program
    gets its arguments back ("Parsing C command-line arguments", for the arguments after the program name). */
module ArgumentQuoting {

  function Slashes(n: nat): (s: string)
    ensures |s| == n && forall i | 0 <= i < n :: s[i] == '\\'
  {
    seq(n, _ => '\\')
  }

  // ----------------------------------------------------------------- printer

  /** What is still to be printed when `slashes` backslashes are held back. */
  function QuoteRest(value: string, slashes: nat): string {
    if value == "" then Slashes(2 * slashes) + "\""
    else if value[0] == '\\' then QuoteRest(value[1..], slashes + 1)
    else if value[0] == '"' then Slashes(2 * slashes + 1) + ("\"" + QuoteRest(value[1..], 0))
    else Slashes(slashes) + ([value[0]] + QuoteRest(value[1..], 0))
  }

  function Quote(value: string): string {
    "\"" + QuoteRest(value, 0)
  }

  method QuoteArgument(value: string) returns (result: string)
    ensures result == Quote(value)
  {
    result := "\"";
    var slashes := 0;
    for i := 0 to |value|
      invariant result + QuoteRest(value[i..], slashes) == Quote(value)
    {
      var character := value[i];
      assert value[i..][1..] == value[i + 1..];
      if character == '\\' {
        slashes := slashes + 1;
        continue;
      }
      ghost var before := result;
      if character == '"' {
        result := result + Slashes(slashes * 2 + 1);
      } else {
        result := result + Slashes(slashes);
      }
      slashes := 0;
      result := result + [character];
      assert result + QuoteRest(value[i + 1..], 0) == before + (result[|before|..] + QuoteRest(value[i + 1..], 0));
    }
    result := result + Slashes(slashes * 2);
    result := result + "\"";
  }

  // ------------------------------------------------------------------ parser

  function LeadingSlashes(s: string): (n: nat)
    ensures n <= |s| && s[..n] == Slashes(n) && (n < |s| ==> s[n] != '\\')
  {
    if s == "" || s[0] != '\\' then 0 else
      var n := 1 + LeadingSlashes(s[1..]);
      assert s[..n] == [s[0]] + s[1..][..n - 1];
      n
  }

  predicate Blank(c: char) {
    c == ' ' || c == '\t'
  }

  /** One argument, and the input after it. Backslashes count only before a quote: an even run gives half of
      them and the quote delimits, an odd run gives half of them and a literal quote. Inside quotes two quotes
      give one where `doubles` says so: parsers differ on this rule. Outside quotes a blank ends the argument. */
  function ParseArgument(s: string, quoted: bool, doubles: bool): (r: (string, string))
    ensures |r.1| <= |s| && (s != "" && (quoted || !Blank(s[0])) ==> |r.1| < |s|)
    decreases |s|, 1
  {
    var n := LeadingSlashes(s);
    AfterSlashes(n, s[n..], quoted, doubles)
  }

  /** The rest `t` of an argument behind a run of `n` backslashes. */
  function AfterSlashes(n: nat, t: string, quoted: bool, doubles: bool): (r: (string, string))
    ensures |r.1| <= |t| && (t != "" && (quoted || !Blank(t[0])) ==> |r.1| < |t|)
    decreases |t|, 0
  {
    if t == "" then (Slashes(n), "")
    else if t[0] == '"' && n % 2 == 1 then
      var (arg, rest) := ParseArgument(t[1..], quoted, doubles);
      (Slashes(n / 2) + ("\"" + arg), rest)
    else if t[0] == '"' && quoted && doubles && |t| > 1 && t[1] == '"' then
      var (arg, rest) := ParseArgument(t[2..], quoted, doubles);
      (Slashes(n / 2) + ("\"" + arg), rest)
    else if t[0] == '"' then
      var (arg, rest) := ParseArgument(t[1..], !quoted, doubles);
      (Slashes(n / 2) + arg, rest)
    else if !quoted && Blank(t[0]) then (Slashes(n), t)
    else
      var (arg, rest) := ParseArgument(t[1..], quoted, doubles);
      (Slashes(n) + ([t[0]] + arg), rest)
  }

  function ParseArguments(s: string, doubles: bool): seq<string>
    decreases |s|
  {
    if s == "" then []
    else if Blank(s[0]) then ParseArguments(s[1..], doubles)
    else
      var (arg, rest) := ParseArgument(s, false, doubles);
      [arg] + ParseArguments(rest, doubles)
  }

  // -------------------------------------------------------------- round trip

  lemma SlashesLead(n: nat, t: string, quoted: bool, doubles: bool)
    requires t == "" || t[0] != '\\'
    ensures ParseArgument(Slashes(n) + t, quoted, doubles) == AfterSlashes(n, t, quoted, doubles)
  {
    hide AfterSlashes;
    var s := Slashes(n) + t;
    var m := LeadingSlashes(s);
    assert forall i | 0 <= i < m :: s[..m][i] == s[i];
    assert m == n && s[n..] == t;
  }

  lemma NoSlashesLead(t: string, quoted: bool, doubles: bool)
    requires t == "" || t[0] != '\\'
    ensures ParseArgument(t, quoted, doubles) == AfterSlashes(0, t, quoted, doubles)
  {
    SlashesLead(0, t, quoted, doubles);
    assert Slashes(0) + t == t;
  }

  /** Reading a quoted rest gives the held-back backslashes and the value, and stops at its closing quote. */
  lemma {:induction false} QuotedRestRead(value: string, slashes: nat, rest: string, doubles: bool)
    requires rest == "" || Blank(rest[0])
    ensures ParseArgument(QuoteRest(value, slashes) + rest, true, doubles) == (Slashes(slashes) + value, rest)
  {
    if value == "" {
      ClosingQuoteRead(slashes, rest, doubles);
    } else if value[0] == '\\' {
      QuotedRestRead(value[1..], slashes + 1, rest, doubles);
      assert Slashes(slashes + 1) + value[1..] == Slashes(slashes) + value;
    } else {
      QuotedRestRead(value[1..], 0, rest, doubles);
      assert Slashes(0) + value[1..] == value[1..];
      OneCharacterRead(value, slashes, rest, doubles);
    }
  }

  lemma ClosingQuoteRead(slashes: nat, rest: string, doubles: bool)
    requires rest == "" || Blank(rest[0])
    ensures ParseArgument(QuoteRest("", slashes) + rest, true, doubles) == (Slashes(slashes) + "", rest)
  {
    hide ParseArgument;
    var t := "\"" + rest;
    assert QuoteRest("", slashes) + rest == Slashes(2 * slashes) + t;
    SlashesLead(2 * slashes, t, true, doubles);
    NoSlashesLead(rest, false, doubles);
    assert t[1..] == rest;
    assert Slashes(0) == "" && Slashes(slashes) + "" == Slashes(slashes);
  }

  /** One printed character, after the right number of backslashes, reads back as itself. */
  lemma CharacterRead(c: char, slashes: nat, tail: string, arg: string, rest: string, doubles: bool)
    requires c != '\\' && ParseArgument(tail, true, doubles) == (arg, rest)
    ensures ParseArgument(Slashes(if c == '"' then 2 * slashes + 1 else slashes) + ([c] + tail), true, doubles)
              == (Slashes(slashes) + ([c] + arg), rest)
  {
    hide ParseArgument;
    var run, t := if c == '"' then 2 * slashes + 1 else slashes, [c] + tail;
    SlashesLead(run, t, true, doubles);
    assert t[1..] == tail;
  }

  lemma Regroup(a: string, b: string, c: string, d: string)
    ensures a + (b + c) + d == a + (b + (c + d))
  {
  }

  lemma OneCharacterRead(value: string, slashes: nat, rest: string, doubles: bool)
    requires value != "" && value[0] != '\\'
    requires ParseArgument(QuoteRest(value[1..], 0) + rest, true, doubles) == (value[1..], rest)
    ensures ParseArgument(QuoteRest(value, slashes) + rest, true, doubles) == (Slashes(slashes) + value, rest)
  {
    hide ParseArgument, QuoteRest, Slashes;
    var c, tail := value[0], QuoteRest(value[1..], 0);
    QuoteOne(value, slashes);
    CharacterRead(c, slashes, tail + rest, value[1..], rest, doubles);
    Regroup(Slashes(if c == '"' then 2 * slashes + 1 else slashes), [c], tail, rest);
    assert [c] + value[1..] == value;
  }

  lemma QuoteOne(value: string, slashes: nat)
    requires value != "" && value[0] != '\\'
    ensures QuoteRest(value, slashes)
              == Slashes(if value[0] == '"' then 2 * slashes + 1 else slashes) + ([value[0]] + QuoteRest(value[1..], 0))
  {
  }

  lemma QuotedArgumentRead(value: string, rest: string, doubles: bool)
    requires rest == "" || Blank(rest[0])
    ensures ParseArgument(Quote(value) + rest, false, doubles) == (value, rest)
  {
    hide ParseArgument, QuoteRest;
    QuotedRestRead(value, 0, rest, doubles);
    var inner := QuoteRest(value, 0) + rest;
    var s := "\"" + inner;
    assert Quote(value) + rest == s && s[1..] == inner;
    NoSlashesLead(s, false, doubles);
    assert Slashes(0) == "" && "" + value == value;
  }

  function JoinQuoted(args: seq<string>): string {
    if args == [] then ""
    else if |args| == 1 then Quote(args[0])
    else Quote(args[0]) + (" " + JoinQuoted(args[1..]))
  }

  /** Quoting any list of strings and joining with spaces parses back to exactly that list. */
  lemma {:induction false} QuotingRoundTrips(args: seq<string>, doubles: bool)
    ensures ParseArguments(JoinQuoted(args), doubles) == args
  {
    if args != [] {
      var rest := if |args| == 1 then "" else " " + JoinQuoted(args[1..]);
      assert JoinQuoted(args) == Quote(args[0]) + rest;
      QuotedArgumentRead(args[0], rest, doubles);
      QuotingRoundTrips(args[1..], doubles);
      if |args| > 1 {
        assert rest[1..] == JoinQuoted(args[1..]);
        assert ParseArguments(rest, doubles) == ParseArguments(rest[1..], doubles);
      }
      assert args == [args[0]] + args[1..];
    }
  }

  /** Different lists have different quoted forms. */
  lemma QuotingIsInjective(a: seq<string>, b: seq<string>)
    requires JoinQuoted(a) == JoinQuoted(b)
    ensures a == b
  {
    QuotingRoundTrips(a, true);
    QuotingRoundTrips(b, true);
  }

  // ---------------------------------------------------------- launch command

  predicate Plain(token: string) {
    token != "" && forall c | c in token :: !Blank(c) && c != '"' && c != '\\'
  }

  lemma {:induction false} PlainRead(token: string, rest: string, doubles: bool)
    requires forall c | c in token :: !Blank(c) && c != '"' && c != '\\'
    requires rest == "" || Blank(rest[0])
    ensures ParseArgument(token + rest, false, doubles) == (token, rest)
  {
    hide ParseArgument;
    var s := token + rest;
    assert token != "" ==> token[0] in token;
    assert s != "" ==> s[0] == if token != "" then token[0] else rest[0];
    NoSlashesLead(s, false, doubles);
    if token != "" {
      assert token[0] in token;
      PlainRead(token[1..], rest, doubles);
      assert s[1..] == token[1..] + rest;
      assert Slashes(0) + ([s[0]] + token[1..]) == token;
    } else {
      assert s == rest && Slashes(0) == "";
    }
  }

  lemma PlainThen(token: string, rest: string, doubles: bool)
    requires Plain(token)
    ensures ParseArguments(token + (" " + rest), doubles) == [token] + ParseArguments(rest, doubles)
  {
    var s := token + (" " + rest);
    assert token[0] in token;
    PlainRead(token, " " + rest, doubles);
    assert (" " + rest)[1..] == rest;
    assert ParseArguments(" " + rest, doubles) == ParseArguments(rest, doubles);
  }

  const SWITCHES: seq<string> := ["-NoLogo", "-NoProfile", "-NonInteractive", "-ExecutionPolicy", "Bypass",
      "-WindowStyle", "Hidden", "-File"]

  /** The arguments of the development launch: a fixed text and the quoted path of the launcher. */
  function DevelopmentArguments(launcher: string): string {
    "-NoLogo" + (" " + ("-NoProfile" + (" " + ("-NonInteractive" + (" " + ("-ExecutionPolicy" + (" " + ("Bypass" + (" "
    + ("-WindowStyle" + (" " + ("Hidden" + (" " + ("-File" + (" " + Quote(launcher))))))))))))))))
  }

  function After(switches: seq<string>, last: string): string {
    if switches == [] then last else switches[0] + (" " + After(switches[1..], last))
  }

  /** The development command hands PowerShell its eight switches and exactly the launcher's path, whatever the path
      contains. */
  lemma DevelopmentArgumentsRead(launcher: string, doubles: bool)
    ensures ParseArguments(DevelopmentArguments(launcher), doubles)
         == ["-NoLogo", "-NoProfile", "-NonInteractive", "-ExecutionPolicy", "Bypass", "-WindowStyle", "Hidden",
             "-File", launcher]
  {
    SwitchesPlain();
    SwitchesRead(SWITCHES, launcher, doubles);
    SwitchesWritten(launcher);
  }

  lemma SwitchesPlain()
    ensures forall s | s in SWITCHES :: Plain(s)
  {
  }

  lemma SwitchesWritten(launcher: string)
    ensures After(SWITCHES, Quote(launcher)) == DevelopmentArguments(launcher)
  {
    hide Quote;
    var q := Quote(launcher);
    AfterOne("-File", [], q);
    AfterOne("Hidden", ["-File"], q);
    AfterOne("-WindowStyle", ["Hidden", "-File"], q);
    AfterOne("Bypass", ["-WindowStyle", "Hidden", "-File"], q);
    AfterOne("-ExecutionPolicy", ["Bypass", "-WindowStyle", "Hidden", "-File"], q);
    AfterOne("-NonInteractive", ["-ExecutionPolicy", "Bypass", "-WindowStyle", "Hidden", "-File"], q);
    AfterOne("-NoProfile", SWITCHES[2..], q);
    AfterOne("-NoLogo", SWITCHES[1..], q);
    assert SWITCHES[2..] == ["-NonInteractive", "-ExecutionPolicy", "Bypass", "-WindowStyle", "Hidden", "-File"];
    assert SWITCHES[1..] == ["-NoProfile"] + SWITCHES[2..] && SWITCHES == ["-NoLogo"] + SWITCHES[1..];
    TailsOf();
  }

  lemma TailsOf()
    ensures ["-File"] == ["-File"] + [] && ["Hidden", "-File"] == ["Hidden"] + ["-File"]
    ensures ["-WindowStyle", "Hidden", "-File"] == ["-WindowStyle"] + ["Hidden", "-File"]
    ensures ["Bypass", "-WindowStyle", "Hidden", "-File"] == ["Bypass"] + ["-WindowStyle", "Hidden", "-File"]
    ensures ["-ExecutionPolicy", "Bypass", "-WindowStyle", "Hidden", "-File"]
         == ["-ExecutionPolicy"] + ["Bypass", "-WindowStyle", "Hidden", "-File"]
    ensures ["-NonInteractive", "-ExecutionPolicy", "Bypass", "-WindowStyle", "Hidden", "-File"]
         == ["-NonInteractive"] + ["-ExecutionPolicy", "Bypass", "-WindowStyle", "Hidden", "-File"]
  {
  }

  lemma AfterOne(first: string, rest: seq<string>, last: string)
    ensures After([first] + rest, last) == first + (" " + After(rest, last))
    ensures rest == [] ==> After(rest, last) == last
  {
    assert ([first] + rest)[1..] == rest;
  }

  lemma {:induction false} SwitchesRead(switches: seq<string>, launcher: string, doubles: bool)
    requires forall s | s in switches :: Plain(s)
    ensures ParseArguments(After(switches, Quote(launcher)), doubles) == switches + [launcher]
  {
    if switches == [] {
      QuotingRoundTrips([launcher], doubles);
      assert JoinQuoted([launcher]) == Quote(launcher);
    } else {
      PlainThen(switches[0], After(switches[1..], Quote(launcher)), doubles);
      SwitchesRead(switches[1..], launcher, doubles);
    }
  }
}
