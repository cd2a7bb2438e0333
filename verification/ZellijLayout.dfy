/** Rendering a topology as a KDL layout, and reading the layout back. */
module ZellijLayout {
  import opened Wrappers
  import opened Topology
  import opened KdlText

  // ----- Rendering -------------------------------------------------------------------------

  function Flag(close: bool): string {
    if close then "close_on_exit=true" else "close_on_exit=false"
  }

  function Properties(name: string, executable: string, close: bool): string {
    "name=" + Quote(name) + (" " + ("command=" + Quote(executable) + (" " + Flag(close))))
  }

  function Arguments(items: seq<string>): string
    requires items != []
  {
    if |items| == 1 then Quote(items[0]) else Quote(items[0]) + (" " + Arguments(items[1..]))
  }

  function SplitDirection(direction: string): string {
    if direction == "left-right" then "vertical" else "horizontal"
  }

  function Render(node: Node, commands: Commands, close: bool, indent: nat): seq<string>
    requires Covers(commands, node) && forall n :: n in commands ==> commands[n] != []
  {
    var prefix := Spaces(indent);
    match node
    case Pane(name) =>
      var command := commands[name];
      var properties := Properties(name, command[0], close);
      if |command| == 1 then [prefix + ("pane" + (" " + properties))]
      else
        [prefix + ("pane" + (" " + properties) + (" " + "{")),
         Spaces(indent + 4) + ("args" + (" " + Arguments(command[1..]))),
         prefix + "}"]
    case Split(direction, first, second, _) =>
      [prefix + ("pane" + (" " + ("split_direction=" + Quote(SplitDirection(direction)) + (" " + "{"))))]
      + (Render(first, commands, close, indent + 4)
         + (Render(second, commands, close, indent + 4)
            + [prefix + "}"]))
  }

  function LayoutText(root: Node, commands: Commands, close: bool): string
    requires ValidTopology(root) && ValidCommands(root, commands)
  {
    JoinLines(["layout" + (" " + "{")] + (Render(root, commands, close, 4) + ["}"]) + [""])
  }

  // ----- Reading ---------------------------------------------------------------------------

  datatype Layout =
    | Leaf(name: string, argv: seq<string>, close: bool)
    | Branch(direction: string, first: Layout, second: Layout)

  function ReadFlag(t: Token): Option<bool> {
    if t == Word("close_on_exit=true") then Some(true)
    else if t == Word("close_on_exit=false") then Some(false)
    else None
  }

  /** The word for side by side is "vertical", the one for stacked is "horizontal", and there is no other. */
  function ReadDirection(word: string): Option<string> {
    if word == "vertical" then Some("left-right")
    else if word == "horizontal" then Some("top-bottom")
    else None
  }

  /** The run of strings at the front. */
  function Strings(t: seq<Token>): (values: seq<string>)
    ensures |values| <= |t|
  {
    if t == [] || !t[0].Str? then [] else [t[0].value] + Strings(t[1..])
  }

  /** The rest of `t` after `expected`. */
  function Expect(t: Option<seq<Token>>, expected: seq<Token>): (r: Option<seq<Token>>)
    ensures r.Some? ==> t.Some? && |r.value| + |expected| == |t.value|
  {
    if t.Some? && expected <= t.value then Some(t.value[|expected|..]) else None
  }

  function ParsePane(t: seq<Token>): (r: Option<(Layout, seq<Token>)>)
    ensures r.Some? ==> |r.value.1| < |t|
  {
    if |t| < 7 || t[0] != Word("pane") || t[1] != Word("name=") || !t[2].Str? || t[3] != Word("command=")
       || !t[4].Str? || ReadFlag(t[5]).None? then None
    else
      var name, executable, close := t[2].value, t[4].value, ReadFlag(t[5]).value;
      if t[6] == Newline then Some((Leaf(name, [executable], close), t[7..]))
      else
        match Expect(Some(t[6..]), [LBrace, Newline, Word("args")])
        case None => None
        case Some(body) =>
          var arguments := Strings(body);
          match Expect(Some(body[|arguments|..]), [Newline, RBrace, Newline])
          case None => None
          case Some(rest) =>
            if arguments == [] then None else Some((Leaf(name, [executable] + arguments, close), rest))
  }

  function ParseNode(t: seq<Token>): (r: Option<(Layout, seq<Token>)>)
    ensures r.Some? ==> |r.value.1| < |t|
    decreases |t|
  {
    if |t| < 5 || t[0] != Word("pane") || t[1] != Word("split_direction=") then ParsePane(t)
    else if !t[2].Str? || ReadDirection(t[2].value).None? || t[3] != LBrace || t[4] != Newline then None
    else
      match ParseNode(t[5..])
      case None => None
      case Some((first, afterFirst)) =>
        match ParseNode(afterFirst)
        case None => None
        case Some((second, afterSecond)) =>
          match Expect(Some(afterSecond), [RBrace, Newline])
          case None => None
          case Some(rest) => Some((Branch(ReadDirection(t[2].value).value, first, second), rest))
  }

  function ParseLayout(text: string): Option<Layout> {
    match Expect(Lex(text), [Word("layout"), LBrace, Newline])
    case None => None
    case Some(body) =>
      match ParseNode(body)
      case None => None
      case Some((layout, rest)) => if rest == [RBrace, Newline] then Some(layout) else None
  }

  // ----- What a layout means ----------------------------------------------------------------

  /** The tree with its commands and without its ratios. */
  function Erase(node: Node, commands: Commands, close: bool): Layout
    requires Covers(commands, node)
  {
    match node
    case Pane(name) => Leaf(name, commands[name], close)
    case Split(direction, first, second, _) =>
      Branch(direction, Erase(first, commands, close), Erase(second, commands, close))
  }

  predicate CleanAll(values: seq<string>) {
    forall i :: 0 <= i < |values| ==> Clean(values[i])
  }

  /** No pane name or argument holds a control character that KDL spells differently. */
  predicate CleanNode(node: Node, commands: Commands)
    requires Covers(commands, node)
  {
    match node
    case Pane(name) => Clean(name) && CleanAll(commands[name])
    case Split(_, first, second, _) => CleanNode(first, commands) && CleanNode(second, commands)
  }

  // ----- The tokens of a rendered node -------------------------------------------------------

  function Strs(items: seq<string>): seq<Token> {
    seq(|items|, i requires 0 <= i < |items| => Str(items[i]))
  }

  function ArgumentTokens(items: seq<string>): Option<seq<Token>> {
    if items == [] then Some([]) else Then(QuoteTokens(items[0]), ArgumentTokens(items[1..]))
  }

  function PaneHead(name: string, executable: string, close: bool): Option<seq<Token>> {
    Then(Some([Word("pane")]),
         Then(Keyed("name=", name), Then(Keyed("command=", executable), Some([Word(Flag(close))]))))
  }

  function SplitHead(direction: string): Option<seq<Token>> {
    Then(Some([Word("pane")]), Then(Keyed("split_direction=", direction), Some([LBrace])))
  }

  /** The tokens of the rendered node, line by line. */
  function NodeTokens(node: Node, commands: Commands, close: bool): Option<seq<Token>>
    requires Covers(commands, node) && forall n :: n in commands ==> commands[n] != []
  {
    match node
    case Pane(name) =>
      var command := commands[name];
      var head := PaneHead(name, command[0], close);
      if |command| == 1 then Line(head)
      else
        Then(Line(Then(head, Some([LBrace]))),
             Then(Line(Then(Some([Word("args")]), ArgumentTokens(command[1..]))), Line(Some([RBrace]))))
    case Split(direction, first, second, _) =>
      Then(Line(SplitHead(SplitDirection(direction))),
           Then(NodeTokens(first, commands, close), Then(NodeTokens(second, commands, close), Line(Some([RBrace])))))
  }

  lemma {:induction false} ArgumentTokensClean(items: seq<string>)
    ensures ArgumentTokens(items).Some? <==> CleanAll(items)
    ensures CleanAll(items) ==> ArgumentTokens(items).value == Strs(items)
  {
    if items != [] {
      ArgumentTokensClean(items[1..]);
      assert CleanAll(items) <==> Clean(items[0]) && CleanAll(items[1..]) by {
        assert forall i :: 0 < i < |items| ==> items[i] == items[1..][i - 1];
      }
    }
  }

  lemma {:induction false} StringsOf(items: seq<string>, rest: seq<Token>)
    requires rest != [] && !rest[0].Str?
    ensures Strings(Strs(items) + rest) == items
  {
    if items != [] {
      StringsOf(items[1..], rest);
      assert (Strs(items) + rest)[1..] == Strs(items[1..]) + rest;
    } else {
      assert Strs(items) + rest == rest;
    }
  }

  function LeafHead(name: string, executable: string, close: bool): seq<Token> {
    [Word("pane"), Word("name="), Str(name), Word("command="), Str(executable), Word(Flag(close))]
  }

  lemma PaneHeadTokens(name: string, executable: string, close: bool)
    requires Clean(name) && Clean(executable)
    ensures PaneHead(name, executable, close) == Some(LeafHead(name, executable, close))
  {
    assert PaneHead(name, executable, close).value == LeafHead(name, executable, close);
  }

  lemma ParseBareLeaf(name: string, executable: string, close: bool, rest: seq<Token>)
    ensures ParseNode(LeafHead(name, executable, close) + [Newline] + rest) ==
        Some((Leaf(name, [executable], close), rest))
  {
    var t := LeafHead(name, executable, close) + [Newline] + rest;
    assert t[7..] == rest && t[6] == Newline && t[5] == Word(Flag(close));
  }

  lemma ParseLeafWithArguments(name: string, executable: string, close: bool, arguments: seq<string>, rest: seq<Token>)
    requires arguments != []
    ensures ParseNode(LeafHead(name, executable, close)
                      + ([LBrace, Newline, Word("args")] + (Strs(arguments) + ([Newline, RBrace, Newline] + rest))))
            == Some((Leaf(name, [executable] + arguments, close), rest))
  {
    var body := Strs(arguments) + ([Newline, RBrace, Newline] + rest);
    var t := LeafHead(name, executable, close) + ([LBrace, Newline, Word("args")] + body);
    StringsOf(arguments, [Newline, RBrace, Newline] + rest);
    assert t[6] == LBrace && t[5] == Word(Flag(close));
    assert t[6..] == [LBrace, Newline, Word("args")] + body;
    assert t[6..][3..] == body;
    assert body[|arguments|..] == [Newline, RBrace, Newline] + rest;
    assert body[|arguments|..][3..] == rest;
  }

  /** A clean pane is read back with its name, its whole command and its flag. */
  lemma LeafTokens(name: string, commands: Commands, close: bool, rest: seq<Token>)
    requires name in commands && (forall n :: n in commands ==> commands[n] != []) && |commands[name]| > 1
    requires PaneHead(name, commands[name][0], close) == Some(LeafHead(name, commands[name][0], close))
    requires ArgumentTokens(commands[name][1..]) == Some(Strs(commands[name][1..]))
    ensures var tokens := NodeTokens(Pane(name), commands, close);
      var body := Strs(commands[name][1..]) + ([Newline, RBrace, Newline] + rest);
      && tokens.Some?
      && tokens.value + rest == LeafHead(name, commands[name][0], close) + ([LBrace, Newline, Word("args")] + body)
  {
  }

  lemma ParseRenderedPane(name: string, commands: Commands, close: bool, rest: seq<Token>)
    requires name in commands && (forall n :: n in commands ==> commands[n] != [])
    requires Clean(name) && CleanAll(commands[name])
    ensures var tokens := NodeTokens(Pane(name), commands, close);
      tokens.Some? && ParseNode(tokens.value + rest) == Some((Leaf(name, commands[name], close), rest))
  {
    var command := commands[name];
    var arguments := command[1..];
    assert command == [command[0]] + arguments;
    assert Clean(command[0]);
    PaneHeadTokens(name, command[0], close);
    var head := LeafHead(name, command[0], close);
    var tokens := NodeTokens(Pane(name), commands, close);
    if |command| == 1 {
      assert tokens.value == head + [Newline] && command == [command[0]];
      ParseBareLeaf(name, command[0], close, rest);
    } else {
      ArgumentTokensClean(arguments);
      LeafTokens(name, commands, close, rest);
      ParseLeafWithArguments(name, command[0], close, arguments, rest);
    }
  }

  lemma NodeTokensClean(node: Node, commands: Commands, close: bool)
    requires Covers(commands, node) && forall n :: n in commands ==> commands[n] != []
    ensures NodeTokens(node, commands, close).Some? <==> CleanNode(node, commands)
  {
    match node
    case Pane(name) =>
      var command := commands[name];
      ArgumentTokensClean(command[1..]);
      assert CleanAll(command) <==> Clean(command[0]) && CleanAll(command[1..]) by {
        assert forall i :: 0 < i < |command| ==> command[i] == command[1..][i - 1];
      }
    case Split(direction, first, second, _) => SplitHeadTokens(direction);
  }

  lemma {:induction false} ParseRendered(node: Node, commands: Commands, close: bool, rest: seq<Token>)
    requires Covers(commands, node) && (forall n :: n in commands ==> commands[n] != [])
    requires ValidNode(node) && CleanNode(node, commands)
    ensures var tokens := NodeTokens(node, commands, close);
      tokens.Some? && ParseNode(tokens.value + rest) == Some((Erase(node, commands, close), rest))
  {
    NodeTokensClean(node, commands, close);
    match node
    case Pane(name) => ParseRenderedPane(name, commands, close, rest);
    case Split(direction, first, second, _) =>
      var end := [RBrace, Newline] + rest;
      ParseRendered(second, commands, close, end);
      var a, b := NodeTokens(first, commands, close).value, NodeTokens(second, commands, close).value;
      ParseRendered(first, commands, close, b + end);
      ParseBranch(direction, a, Erase(first, commands, close), b, Erase(second, commands, close), rest);
      BranchTokens(direction, a, b, rest);
  }

  lemma BranchTokens(direction: string, a: seq<Token>, b: seq<Token>, rest: seq<Token>)
    ensures var t := Then(Line(SplitHead(SplitDirection(direction))),
        Then(Some(a), Then(Some(b), Line(Some([RBrace])))));
      t.Some? && t.value + rest == BranchHead(SplitDirection(direction)) + (a + (b + ([RBrace, Newline] + rest)))
  {
    SplitHeadTokens(direction);
  }

  function BranchHead(direction: string): seq<Token> {
    [Word("pane"), Word("split_direction="), Str(direction), LBrace, Newline]
  }

  lemma SplitHeadTokens(direction: string)
    ensures Line(SplitHead(SplitDirection(direction))) == Some(BranchHead(SplitDirection(direction)))
  {
    var d := SplitDirection(direction);
    assert Clean(d);
    assert Line(SplitHead(d)).value == BranchHead(d);
  }

  lemma CloseRead(rest: seq<Token>)
    ensures Expect(Some([RBrace, Newline] + rest), [RBrace, Newline]) == Some(rest)
  {
    var t := [RBrace, Newline] + rest;
    assert t[2..] == rest && t[..2] == [RBrace, Newline];
  }

  lemma ParseSplitStep(t: seq<Token>, word: string, direction: string, first: Layout, second: Layout,
                       end: seq<Token>, rest: seq<Token>)
    requires |t| >= 5 && t[0] == Word("pane") && t[1] == Word("split_direction=")
    requires t[2] == Str(word) && t[3] == LBrace && t[4] == Newline && ReadDirection(word) == Some(direction)
    requires ParseNode(t[5..]).Some? && ParseNode(t[5..]).value.0 == first
    requires ParseNode(ParseNode(t[5..]).value.1) == Some((second, end)) && end == [RBrace, Newline] + rest
    ensures ParseNode(t) == Some((Branch(direction, first, second), rest))
  {
    CloseRead(rest);
  }

  lemma HeadRead(direction: string, body: seq<Token>)
    ensures var t := BranchHead(direction) + body;
      && |t| >= 5 && t[0] == Word("pane") && t[1] == Word("split_direction=")
      && t[2] == Str(direction) && t[3] == LBrace && t[4] == Newline && t[5..] == body
  {
  }

  lemma ParseBranch(direction: string, a: seq<Token>, first: Layout, b: seq<Token>, second: Layout, rest: seq<Token>)
    requires direction in {"left-right", "top-bottom"}
    requires ParseNode(a + (b + ([RBrace, Newline] + rest))) == Some((first, b + ([RBrace, Newline] + rest)))
    requires ParseNode(b + ([RBrace, Newline] + rest)) == Some((second, [RBrace, Newline] + rest))
    ensures ParseNode(BranchHead(SplitDirection(direction)) + (a + (b + ([RBrace, Newline] + rest)))) ==
            Some((Branch(direction, first, second), rest))
  {
    var body := a + (b + ([RBrace, Newline] + rest));
    var word := SplitDirection(direction);
    HeadRead(word, body);
    ParseSplitStep(BranchHead(word) + body, word, direction, first, second, [RBrace, Newline] + rest, rest);
  }

  // ----- From text to tokens -----------------------------------------------------------------

  lemma LexProperties(name: string, executable: string, close: bool, s: string)
    requires Separated(s)
    ensures Lexes("pane" + (" " + Properties(name, executable, close)), PaneHead(name, executable, close), s)
  {
    var flag := Flag(close);
    var k1, k2 := "name=" + Quote(name), "command=" + Quote(executable);
    LexWord(flag, s);
    LexKeyed("command=", executable, " " + flag + s);
    LexesGap(k2, Keyed("command=", executable), flag, Some([Word(flag)]), s);
    var t2 := Then(Keyed("command=", executable), Some([Word(flag)]));
    var rest := k2 + (" " + flag);
    LexKeyed("name=", name, " " + rest + s);
    LexesGap(k1, Keyed("name=", name), rest, t2, s);
    LexWord("pane", " " + (k1 + (" " + rest)) + s);
    LexesGap("pane", Some([Word("pane")]), k1 + (" " + rest), Then(Keyed("name=", name), t2), s);
  }

  lemma LexSplitHead(direction: string, s: string)
    ensures Lexes("pane" + (" " + ("split_direction=" + Quote(direction) + (" " + "{"))), SplitHead(direction), s)
  {
    LexPunctuation('{', s);
    var key := "split_direction=" + Quote(direction);
    LexKeyed("split_direction=", direction, " " + "{" + s);
    LexesGap(key, Keyed("split_direction=", direction), "{", Some([LBrace]), s);
    LexWord("pane", " " + (key + (" " + "{")) + s);
    LexesGap("pane", Some([Word("pane")]), key + (" " + "{"),
        Then(Keyed("split_direction=", direction), Some([LBrace])), s);
  }

  lemma {:induction false} LexArguments(items: seq<string>, s: string)
    requires items != []
    ensures Lexes(Arguments(items), ArgumentTokens(items), s)
  {
    if |items| == 1 {
      LexQuoted(items[0], s);
      assert ArgumentTokens(items[1..]) == Some([]);
      assert QuoteTokens(items[0]).Some? ==> QuoteTokens(items[0]).value + [] == QuoteTokens(items[0]).value;
    } else {
      LexArguments(items[1..], s);
      LexQuoted(items[0], " " + Arguments(items[1..]) + s);
      LexesGap(Quote(items[0]), QuoteTokens(items[0]), Arguments(items[1..]), ArgumentTokens(items[1..]), s);
    }
  }

  lemma LexOpenLine(indent: nat, text: string, tokens: Option<seq<Token>>, s: string)
    requires Lexes(text, tokens, " " + "{" + ("\n" + s))
    ensures Lexes(Text([Spaces(indent) + (text + (" " + "{"))]), Line(Then(tokens, Some([LBrace]))), s)
  {
    LexPunctuation('{', "\n" + s);
    LexesGap(text, tokens, "{", Some([LBrace]), "\n" + s);
    LexLine(indent, text + (" " + "{"), Then(tokens, Some([LBrace])), s);
  }

  lemma LexClosing(indent: nat, s: string)
    ensures Lexes(Text([Spaces(indent) + "}"]), Line(Some([RBrace])), s)
  {
    LexPunctuation('}', "\n" + s);
    LexLine(indent, "}", Some([RBrace]), s);
  }

  lemma LexArgumentsLine(indent: nat, items: seq<string>, s: string)
    requires items != []
    ensures Lexes(Text([Spaces(indent) + ("args" + (" " + Arguments(items)))]),
                  Line(Then(Some([Word("args")]), ArgumentTokens(items))), s)
  {
    LexArguments(items, "\n" + s);
    LexWord("args", " " + Arguments(items) + ("\n" + s));
    LexesGap("args", Some([Word("args")]), Arguments(items), ArgumentTokens(items), "\n" + s);
    LexLine(indent, "args" + (" " + Arguments(items)), Then(Some([Word("args")]), ArgumentTokens(items)), s);
  }

  lemma LexPane(name: string, commands: Commands, close: bool, indent: nat, s: string)
    requires name in commands && forall n :: n in commands ==> commands[n] != []
    ensures Lexes(Text(Render(Pane(name), commands, close, indent)), NodeTokens(Pane(name), commands, close), s)
  {
    var command, prefix := commands[name], Spaces(indent);
    var properties := "pane" + (" " + Properties(name, command[0], close));
    var head := PaneHead(name, command[0], close);
    if |command| == 1 {
      LexProperties(name, command[0], close, "\n" + s);
      LexLine(indent, properties, head, s);
    } else {
      var a := [prefix + (properties + (" " + "{"))];
      var b := [Spaces(indent + 4) + ("args" + (" " + Arguments(command[1..])))];
      var c := [prefix + "}"];
      var tb := Line(Then(Some([Word("args")]), ArgumentTokens(command[1..])));
      LexClosing(indent, s);
      LexArgumentsLine(indent + 4, command[1..], Text(c) + s);
      LexesTwo(b, tb, c, Line(Some([RBrace])), s);
      var s1 := Text(b + c) + s;
      LexProperties(name, command[0], close, " " + "{" + ("\n" + s1));
      LexOpenLine(indent, properties, head, s1);
      LexesTwo(a, Line(Then(head, Some([LBrace]))), b + c, Then(tb, Line(Some([RBrace]))), s);
      assert Render(Pane(name), commands, close, indent) == a + (b + c);
    }
  }

  lemma {:induction false} LexNode(node: Node, commands: Commands, close: bool, indent: nat, s: string)
    requires Covers(commands, node) && forall n :: n in commands ==> commands[n] != []
    ensures Lexes(Text(Render(node, commands, close, indent)), NodeTokens(node, commands, close), s)
  {
    match node
    case Pane(name) => LexPane(name, commands, close, indent, s);
    case Split(direction, first, second, _) =>
      var b, c := Render(first, commands, close, indent + 4), Render(second, commands, close, indent + 4);
      var e := [Spaces(indent) + "}"];
      LexClosing(indent, s);
      LexNode(second, commands, close, indent + 4, Text(e) + s);
      LexNode(first, commands, close, indent + 4, Text(c + e) + s);
      LexBranch(SplitDirection(direction), indent, b, NodeTokens(first, commands, close), c,
                NodeTokens(second, commands, close), e, s);
  }

  lemma LexBranch(direction: string, indent: nat, b: seq<string>, tb: Option<seq<Token>>,
                  c: seq<string>, tc: Option<seq<Token>>, e: seq<string>, s: string)
    requires Lexes(Text(e), Line(Some([RBrace])), s) && Lexes(Text(c), tc, Text(e) + s)
    requires Lexes(Text(b), tb, Text(c + e) + s)
    ensures Lexes(Text([Spaces(indent) + ("pane" + (" " + ("split_direction=" + Quote(direction) + (" " + "{"))))]
        + (b + (c + e))),
                  Then(Line(SplitHead(direction)), Then(tb, Then(tc, Line(Some([RBrace]))))), s)
  {
    var head := "pane" + (" " + ("split_direction=" + Quote(direction) + (" " + "{")));
    var te := Line(Some([RBrace]));
    LexesTwo(c, tc, e, te, s);
    LexesTwo(b, tb, c + e, Then(tc, te), s);
    var rest := Text(b + (c + e)) + s;
    LexSplitHead(direction, "\n" + rest);
    LexLine(indent, head, SplitHead(direction), rest);
    LexesTwo([Spaces(indent) + head], Line(SplitHead(direction)), b + (c + e), Then(tb, Then(tc, te)), s);
  }

  lemma LexOpening(s: string)
    ensures Lexes(Text(["layout" + (" " + "{")]), Line(Then(Some([Word("layout")]), Some([LBrace]))), s)
  {
    LexWord("layout", " " + "{" + ("\n" + s));
    LexOpenLine(0, "layout", Some([Word("layout")]), s);
    assert Spaces(0) + ("layout" + (" " + "{")) == "layout" + (" " + "{");
  }

  function LayoutTokens(node: Option<seq<Token>>): Option<seq<Token>> {
    Then(Line(Then(Some([Word("layout")]), Some([LBrace]))), Then(node, Line(Some([RBrace]))))
  }

  lemma LexLayout(root: Node, commands: Commands, close: bool)
    requires ValidTopology(root) && ValidCommands(root, commands)
    ensures Lex(LayoutText(root, commands, close)) == LayoutTokens(NodeTokens(root, commands, close))
  {
    var a, b, c := ["layout" + (" " + "{")], Render(root, commands, close, 4), ["}"];
    var t, end := NodeTokens(root, commands, close), Line(Some([RBrace]));
    JoinIsText(a + (b + c));
    LexClosing(0, "");
    assert Spaces(0) + "}" == "}";
    LexNode(root, commands, close, 4, Text(c) + "");
    LexesTwo(b, t, c, end, "");
    LexOpening(Text(b + c) + "");
    LexesTwo(a, Line(Then(Some([Word("layout")]), Some([LBrace]))), b + c, Then(t, end), "");
    AtEnd(Text(a + (b + c)), LayoutTokens(t));
  }

  lemma AtEnd(text: string, tokens: Option<seq<Token>>)
    requires Lexes(text, tokens, "")
    ensures Lex(text) == tokens
  {
    assert text + "" == text;
    assert tokens.Some? ==> tokens.value + [] == tokens.value;
  }

  /** The layout text is read back as the tree, names, whole commands and flag included, exactly when
      no name or argument needs an escape that KDL spells differently from JSON. */
  lemma LayoutReadsBack(root: Node, commands: Commands, close: bool)
    requires ValidTopology(root) && ValidCommands(root, commands)
    ensures ParseLayout(LayoutText(root, commands, close)) ==
            if CleanNode(root, commands) then Some(Erase(root, commands, close)) else None
  {
    LexLayout(root, commands, close);
    NodeTokensClean(root, commands, close);
    if CleanNode(root, commands) {
      var t := NodeTokens(root, commands, close).value;
      ParseRendered(root, commands, close, [RBrace, Newline]);
      LayoutStart(t);
    }
  }

  /** `zellij_layout`: both validations come before any text, and the text reads back as the tree. */
  function Compile(root: Node, commands: Commands, close: bool): (r: Result<string, string>)
    ensures r.Success? <==> ValidTopology(root) && ValidCommands(root, commands)
    ensures r.Success? ==>
      ParseLayout(r.value) == if CleanNode(root, commands) then Some(Erase(root, commands, close)) else None
  {
    if !ValidTopology(root) then Failure("invalid topology")
    else if !ValidCommands(root, commands) then Failure("commands must match topology panes exactly")
    else
      LayoutReadsBack(root, commands, close);
      Success(LayoutText(root, commands, close))
  }

  lemma LayoutStart(t: seq<Token>)
    ensures Expect(LayoutTokens(Some(t)), [Word("layout"), LBrace, Newline]) == Some(t + [RBrace, Newline])
  {
    var tokens := LayoutTokens(Some(t)).value;
    assert tokens == [Word("layout"), LBrace, Newline] + (t + [RBrace, Newline]);
    assert tokens[3..] == t + [RBrace, Newline];
  }

  /** Both backends build the same panes: what the text says is what the replayed script built. */
  lemma BackendsAgree(root: Node, commands: Commands, close: bool)
    requires ValidTopology(root) && ValidCommands(root, commands) && CleanNode(root, commands)
    ensures var built := Replay(TmuxScript(root, commands));
      && built.Some? && Covers(built.value.started, built.value.tree)
      && ParseLayout(LayoutText(root, commands, close)) == Some(Erase(built.value.tree, built.value.started, close))
  {
    ReplayRebuilds(root, commands);
    LayoutReadsBack(root, commands, close);
  }

  /** One escape character in an argument is enough for no reader to accept the layout. */
  lemma EscapeCharacterIsUnreadable()
    ensures var commands: Commands := map["p" := ["sh", [27 as char]]];
      && ValidTopology(Pane("p")) && ValidCommands(Pane("p"), commands)
      && ParseLayout(LayoutText(Pane("p"), commands, true)).None?
  {
    var argument := [27 as char];
    var commands: Commands := map["p" := ["sh", argument]];
    assert !CleanChar(argument[0]);
    assert commands["p"][1] == argument;
    LayoutReadsBack(Pane("p"), commands, true);
  }

  // ----- Indentation ---------------------------------------------------------------------------

  function Indented(lines: seq<string>): seq<string> {
    seq(|lines|, i requires 0 <= i < |lines| => "    " + lines[i])
  }

  lemma DeeperLine(n: nat, line: string)
    ensures Spaces(n + 4) + line == "    " + (Spaces(n) + line)
  {
    assert Spaces(n + 4) == "    " + Spaces(n);
  }

  lemma DeeperThree(n: nat, a: string, b: string, c: string)
    ensures [Spaces(n + 4) + a, Spaces(n + 8) + b, Spaces(n + 4) + c] ==
            Indented([Spaces(n) + a, Spaces(n + 4) + b, Spaces(n) + c])
  {
    DeeperLine(n, a);
    DeeperLine(n + 4, b);
    DeeperLine(n, c);
  }

  lemma DeeperOne(n: nat, a: string)
    ensures [Spaces(n + 4) + a] == Indented([Spaces(n) + a])
  {
    DeeperLine(n, a);
  }

  lemma IndentedJoin(a: seq<string>, b: seq<string>)
    ensures Indented(a + b) == Indented(a) + Indented(b)
  {
  }

  lemma DeeperBlock(n: nat, head: string, a: seq<string>, b: seq<string>, end: string)
    ensures [Spaces(n + 4) + head] + (Indented(a) + (Indented(b) + [Spaces(n + 4) + end])) ==
            Indented([Spaces(n) + head] + (a + (b + [Spaces(n) + end])))
  {
    DeeperOne(n, head);
    DeeperOne(n, end);
    IndentedJoin(b, [Spaces(n) + end]);
    IndentedJoin(a, b + [Spaces(n) + end]);
    IndentedJoin([Spaces(n) + head], a + (b + [Spaces(n) + end]));
  }

  lemma {:induction false} DeeperPane(name: string, commands: Commands, close: bool, n: nat)
    requires name in commands && forall m :: m in commands ==> commands[m] != []
    ensures Render(Pane(name), commands, close, n + 4) == Indented(Render(Pane(name), commands, close, n))
  {
    var command := commands[name];
    var properties := Properties(name, command[0], close);
    if |command| == 1 {
      DeeperOne(n, "pane" + (" " + properties));
    } else {
      DeeperThree(n, "pane" + (" " + properties) + (" " + "{"), "args" + (" " + Arguments(command[1..])), "}");
    }
  }

  /** Four columns further in, every line starts with four more blanks and is the same otherwise. */
  lemma {:induction false} DeeperIsIndented(node: Node, commands: Commands, close: bool, n: nat)
    requires Covers(commands, node) && forall m :: m in commands ==> commands[m] != []
    ensures Render(node, commands, close, n + 4) == Indented(Render(node, commands, close, n))
  {
    match node
    case Pane(name) => DeeperPane(name, commands, close, n);
    case Split(direction, first, second, _) =>
      DeeperIsIndented(first, commands, close, n + 4);
      DeeperIsIndented(second, commands, close, n + 4);
      var head := "pane" + (" " + ("split_direction=" + Quote(SplitDirection(direction)) + (" " + "{")));
      var a, b := Render(first, commands, close, n + 4), Render(second, commands, close, n + 4);
      DeeperBlock(n, head, a, b, "}");
  }

  function Block(head: string, a: seq<string>, b: seq<string>, end: string): seq<string> {
    [head] + (a + (b + [end]))
  }

  /** All lines but the first and the last are those of `a` and of `b`, four blanks further in. */
  predicate Encloses(all: seq<string>, a: seq<string>, b: seq<string>) {
    |all| == |a| + |b| + 2 && all[1..|all| - 1] == Indented(a) + Indented(b)
  }

  lemma BlockEncloses(head: string, a: seq<string>, b: seq<string>, end: string)
    ensures Encloses(Block(head, Indented(a), Indented(b), end), a, b)
  {
  }

  lemma {:induction false} RenderedSplit(node: Node, commands: Commands, close: bool, n: nat) returns (head: string)
    requires Covers(commands, node) && (forall m :: m in commands ==> commands[m] != []) && node.Split?
    ensures Render(node, commands, close, n) ==
            Block(head, Render(node.first, commands, close, n + 4), Render(node.second, commands, close, n + 4),
                  Spaces(n) + "}")
  {
    head := Spaces(n) + ("pane" + (" " + ("split_direction=" + Quote(SplitDirection(node.direction)) + (" " + "{"))));
  }

  /** Between the braces of a split stand the lines of both halves, four blanks further in. */
  lemma {:induction false} HalvesAreIndented(node: Node, commands: Commands, close: bool, n: nat)
    requires Covers(commands, node) && (forall m :: m in commands ==> commands[m] != []) && node.Split?
    ensures Encloses(Render(node, commands, close, n),
                     Render(node.first, commands, close, n), Render(node.second, commands, close, n))
  {
    DeeperIsIndented(node.first, commands, close, n);
    DeeperIsIndented(node.second, commands, close, n);
    var head := RenderedSplit(node, commands, close, n);
    BlockEncloses(head, Render(node.first, commands, close, n), Render(node.second, commands, close, n),
                  Spaces(n) + "}");
  }
}
