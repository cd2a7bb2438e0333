/** Pane topologies and their compilation to a linear tmux script. */
module Topology {
  import opened Basics
  import opened Wrappers

  datatype Node =
    | Pane(name: string)
    | Split(direction: string, first: Node, second: Node, ratioMilli: int)

  type Commands = map<string, seq<string>>

  const DIRECTIONS: set<string> := {"left-right", "top-bottom"}

  function PaneNames(node: Node): (names: seq<string>)
    ensures names != []
  {
    match node
    case Pane(name) => [name]
    case Split(_, first, second, _) => PaneNames(first) + PaneNames(second)
  }

  function FirstPane(node: Node): (name: string)
    ensures name == PaneNames(node)[0] && name in Names(node)
  {
    match node
    case Pane(name) => name
    case Split(_, first, _, _) => FirstPane(first)
  }

  function Names(node: Node): set<string> {
    match node
    case Pane(name) => {name}
    case Split(_, first, second, _) => Names(first) + Names(second)
  }

  lemma NamesArePaneNames(node: Node)
    ensures forall n :: n in Names(node) <==> n in PaneNames(node)
  {
  }

  // ----- Validation ------------------------------------------------------------------------

  /** `str.isspace` of one character. */
  predicate IsSpace(c: char) {
    var n := c as int;
    9 <= n <= 13 || 28 <= n <= 32 || n == 0x85 || n == 0xa0 || n == 0x1680 || 0x2000 <= n <= 0x200a
    || n in {0x2028, 0x2029, 0x202f, 0x205f, 0x3000}
  }

  predicate ValidName(name: string) {
    name != "" && forall i :: 0 <= i < |name| ==> !IsSpace(name[i])
  }

  predicate ValidNode(node: Node) {
    match node
    case Pane(name) => ValidName(name)
    case Split(direction, first, second, ratio) =>
      direction in DIRECTIONS && 1 <= ratio <= 999 && ValidNode(first) && ValidNode(second)
  }

  predicate ValidTopology(root: Node) {
    NoDuplicates(PaneNames(root)) && ValidNode(root)
  }

  predicate ValidCommands(root: Node, commands: Commands) {
    && commands.Keys == Names(root)
    && forall name :: name in commands ==> commands[name] != [] && commands[name][0] != ""
  }

  function Subtrees(node: Node): seq<Node> {
    [node] + match node case Pane(_) => [] case Split(_, first, second, _) => Subtrees(first) + Subtrees(second)
  }

  /** A pane with a nonempty name free of white space, or a split in one of two directions with a ratio that
      leaves something on both sides. */
  predicate WellFormed(node: Node) {
    match node
    case Pane(name) => name != "" && forall i :: 0 <= i < |name| ==> name[i] as int !in WHITE_SPACE
    case Split(direction, _, _, ratio) => (direction == "left-right" || direction == "top-bottom") && 0 < ratio < 1000
  }

  /** The code points Python takes for white space. */
  const WHITE_SPACE: set<int> :=
    {9, 10, 11, 12, 13, 28, 29, 30, 31, 32, 0x85, 0xa0, 0x1680,
     0x2000, 0x2001, 0x2002, 0x2003, 0x2004, 0x2005, 0x2006, 0x2007, 0x2008, 0x2009, 0x200a,
     0x2028, 0x2029, 0x202f, 0x205f, 0x3000}

  lemma SpaceMeans(c: char)
    ensures IsSpace(c) <==> c as int in WHITE_SPACE
  {
  }

  lemma ValidNameMeans(name: string)
    ensures ValidName(name) <==> WellFormed(Pane(name))
  {
    forall i | 0 <= i < |name|
      ensures IsSpace(name[i]) <==> name[i] as int in WHITE_SPACE
    {
      SpaceMeans(name[i]);
    }
  }

  lemma {:induction false} ValidNodeMeans(node: Node)
    ensures ValidNode(node) <==> forall part :: part in Subtrees(node) ==> WellFormed(part)
  {
    match node
    case Pane(name) =>
      ValidNameMeans(name);
      assert Subtrees(node) == [node];
    case Split(_, first, second, _) =>
      ValidNodeMeans(first);
      ValidNodeMeans(second);
      assert Subtrees(node) == [node] + (Subtrees(first) + Subtrees(second));
      assert node in Subtrees(node);
      assert forall part :: part in Subtrees(node) <==>
        part == node || part in Subtrees(first) || part in Subtrees(second);
  }

  /** Validation accepts exactly the trees all of whose parts are well formed and no two of whose panes share
      a name. */
  lemma ValidMeansWellFormed(root: Node)
    ensures ValidTopology(root) <==>
      NoDuplicates(PaneNames(root)) && forall part :: part in Subtrees(root) ==> WellFormed(part)
  {
    ValidNodeMeans(root);
  }

  // ----- The tmux script -------------------------------------------------------------------

  datatype Action =
    | NewSession(pane: string, argv: seq<string>)
    | SplitPane(target: string, pane: string, direction: string, ratioMilli: int, argv: seq<string>)

  predicate Covers(commands: Commands, node: Node) {
    Names(node) <= commands.Keys
  }

  /** The splits that turn the pane `FirstPane(node)` into `node`. */
  function Script(node: Node, commands: Commands): seq<Action>
    requires Covers(commands, node)
  {
    match node
    case Pane(_) => []
    case Split(direction, first, second, ratio) =>
      var pane := FirstPane(second);
      [SplitPane(FirstPane(first), pane, direction, ratio, commands[pane])]
      + Script(first, commands) + Script(second, commands)
  }

  function TmuxScript(root: Node, commands: Commands): seq<Action>
    requires Covers(commands, root)
  {
    var first := FirstPane(root);
    [NewSession(first, commands[first])] + Script(root, commands)
  }

  lemma AppendInParts(before: seq<Action>, split: Action, a: seq<Action>, b: seq<Action>)
    ensures before + [split] + a + b == before + ([split] + a + b)
  {
  }

  class TmuxCompiler {
    var actions: seq<Action>
    const commands: Commands

    constructor (commands: Commands, action: Action)
      ensures this.commands == commands && actions == [action]
    {
      this.commands := commands;
      actions := [action];
    }

    /** Fails, without an action, exactly when `existing` is not the anchor of `node`. */
    method Materialize(node: Node, existing: string) returns (r: Result<(), string>)
      requires Covers(commands, node)
      modifies this`actions
      ensures r.Success? <==> existing == FirstPane(node)
      ensures actions == old(actions) + if r.Success? then Script(node, commands) else []
    {
      match node
      case Pane(name) =>
        if name != existing {
          return Failure("topology materialization lost its anchor pane");
        }
        return Success(());
      case Split(direction, first, second, ratio) =>
        var firstAnchor := FirstPane(first);
        var secondAnchor := FirstPane(second);
        if firstAnchor != existing {
          return Failure("split subtree does not begin at its existing anchor");
        }
        var split := SplitPane(firstAnchor, secondAnchor, direction, ratio, commands[secondAnchor]);
        actions := actions + [split];
        var left := Materialize(first, firstAnchor);
        if left.Failure? {
          return left;
        }
        var right := Materialize(second, secondAnchor);
        if right.Failure? {
          return right;
        }
        AppendInParts(old(actions), split, Script(first, commands), Script(second, commands));
        return Success(());
    }
  }

  method TmuxActions(root: Node, commands: Commands) returns (r: Result<seq<Action>, string>)
    ensures r.Success? <==> ValidTopology(root) && ValidCommands(root, commands)
    ensures r.Success? ==> Covers(commands, root) && r.value == TmuxScript(root, commands)
  {
    if !ValidTopology(root) {
      return Failure("invalid topology");
    }
    if !ValidCommands(root, commands) {
      return Failure("commands must match topology panes exactly");
    }
    var first := FirstPane(root);
    var compiler := new TmuxCompiler(commands, NewSession(first, commands[first]));
    var done := compiler.Materialize(root, first);
    if done.Failure? {
      return Failure("materialization failed");
    }
    return Success(compiler.actions);
  }

  // ----- Replaying a script ----------------------------------------------------------------

  /** What a multiplexer holds: the tree of panes and the command each pane was started with. */
  datatype Session = Session(tree: Node, started: Commands)

  /** Replace the leaf `target` by `node`. */
  function Graft(tree: Node, target: string, node: Node): Node {
    match tree
    case Pane(name) => if name == target then node else tree
    case Split(direction, first, second, ratio) =>
      Split(direction, Graft(first, target, node), Graft(second, target, node), ratio)
  }

  /** One action; a split needs an existing target and a pane name that is not in use. */
  function Perform(session: Session, action: Action): Option<Session> {
    match action
    case NewSession(_, _) => None
    case SplitPane(target, pane, direction, ratio, argv) =>
      if target !in Names(session.tree) || pane in Names(session.tree) || pane in session.started then None
      else
        Some(Session(Graft(session.tree, target, Split(direction, Pane(target), Pane(pane), ratio)),
                     session.started[pane := argv]))
  }

  function PerformAll(session: Session, actions: seq<Action>): Option<Session>
    decreases |actions|
  {
    if actions == [] then Some(session)
    else
      match Perform(session, actions[0])
      case None => None
      case Some(next) => PerformAll(next, actions[1..])
  }

  function Replay(actions: seq<Action>): Option<Session> {
    if actions == [] || !actions[0].NewSession? then None
    else
      PerformAll(Session(Pane(actions[0].pane), map[actions[0].pane := actions[0].argv]), actions[1..])
  }

  // ----- Grafting --------------------------------------------------------------------------

  lemma {:induction false} PerformAllCompose(session: Session, a: seq<Action>, b: seq<Action>)
    ensures PerformAll(session, a + b) ==
            match PerformAll(session, a) case None => None case Some(next) => PerformAll(next, b)
    decreases |a|
  {
    if a == [] {
      assert a + b == b;
    } else {
      assert (a + b)[1..] == a[1..] + b;
      match Perform(session, a[0])
      case None =>
      case Some(next) => PerformAllCompose(next, a[1..], b);
    }
  }

  /** Grafting twice is grafting the graft, unless the second target was there before. */
  lemma GraftGraft(tree: Node, f: string, x: Node, g: string, y: Node)
    requires g == f || g !in Names(tree)
    ensures Graft(Graft(tree, f, x), g, y) == Graft(tree, f, Graft(x, g, y))
  {
  }

  lemma GraftAbsent(tree: Node, f: string, x: Node)
    requires f !in Names(tree)
    ensures Graft(tree, f, x) == tree
  {
  }

  lemma GraftNames(tree: Node, f: string, x: Node)
    requires f in Names(tree)
    ensures Names(Graft(tree, f, x)) == Names(tree) - {f} + Names(x)
  {
    match tree
    case Pane(_) =>
    case Split(_, first, second, _) =>
      if f in Names(first) { GraftNames(first, f, x); } else { GraftAbsent(first, f, x); }
      if f in Names(second) { GraftNames(second, f, x); } else { GraftAbsent(second, f, x); }
  }

  /** No name occurs in both halves of any split. */
  predicate Distinct(node: Node) {
    match node
    case Pane(_) => true
    case Split(_, first, second, _) => Names(first) !! Names(second) && Distinct(first) && Distinct(second)
  }

  predicate Fresh(node: Node, session: Session) {
    Distinct(node) && Names(node) - {FirstPane(node)} !! Names(session.tree) + session.started.Keys
  }

  /** The commands the script starts: those of every pane but the anchor. */
  function Others(commands: Commands, node: Node): Commands {
    map n | n in Names(node) - {FirstPane(node)} && n in commands :: commands[n]
  }

  /** Names of the two halves of a uniquely named split never meet. */
  lemma HalvesAreDisjoint(a: seq<string>, b: seq<string>)
    requires NoDuplicates(a + b)
    ensures NoDuplicates(a) && NoDuplicates(b) && forall n :: n in a ==> n !in b
  {
    forall i, j | 0 <= i < |a| && 0 <= j < |b|
      ensures a[i] != b[j]
    {
      assert (a + b)[i] == a[i] && (a + b)[|a| + j] == b[j];
    }
    forall i, j | 0 <= i < j < |b|
      ensures b[i] != b[j]
    {
      assert (a + b)[|a| + i] == b[i] && (a + b)[|a| + j] == b[j];
    }
    forall i, j | 0 <= i < j < |a|
      ensures a[i] != a[j]
    {
      assert (a + b)[i] == a[i] && (a + b)[j] == a[j];
    }
  }

  lemma {:induction false} UniqueIsDistinct(node: Node)
    requires NoDuplicates(PaneNames(node))
    ensures Distinct(node)
  {
    match node
    case Pane(_) =>
    case Split(_, first, second, _) =>
      HalvesAreDisjoint(PaneNames(first), PaneNames(second));
      NamesArePaneNames(first);
      NamesArePaneNames(second);
      UniqueIsDistinct(first);
      UniqueIsDistinct(second);
  }

  /** Inside any session that shows the anchor, the script grafts the whole subtree onto it. */
  lemma {:induction false} ScriptGrafts(node: Node, commands: Commands, session: Session)
    requires Covers(commands, node) && Fresh(node, session) && FirstPane(node) in Names(session.tree)
    ensures PerformAll(session, Script(node, commands)) ==
            Some(Session(Graft(session.tree, FirstPane(node), node), session.started + Others(commands, node)))
  {
    match node
    case Pane(name) =>
      GraftSelf(session.tree, name);
      assert session.started + Others(commands, node) == session.started;
    case Split(direction, first, second, ratio) =>
      var f, g := FirstPane(first), FirstPane(second);
      var s1, s2 := Opened(session, node, commands), FirstGrown(session, node, commands);
      HalvesAreFresh(session, node, commands);
      ScriptGrafts(first, commands, s1);
      ScriptGrafts(second, commands, s2);
      SplitGrafts(session.tree, direction, first, second, ratio);
      StartedJoins(session.started, commands, node);
      var op := Opening(node, commands);
      ScriptOfSplit(node, commands);
      PerformSplit(session, op, s1, Script(first, commands), s2, Script(second, commands));
  }

  function Opening(node: Node, commands: Commands): Action
    requires node.Split? && Covers(commands, node)
  {
    var pane := FirstPane(node.second);
    SplitPane(FirstPane(node.first), pane, node.direction, node.ratioMilli, commands[pane])
  }

  lemma ScriptOfSplit(node: Node, commands: Commands)
    requires node.Split? && Covers(commands, node)
    ensures Script(node, commands) == [Opening(node, commands)]
        + (Script(node.first, commands) + Script(node.second, commands))
  {
  }

  /** The session after the opening split. */
  function Opened(session: Session, node: Node, commands: Commands): Session
    requires node.Split? && Covers(commands, node)
  {
    var f, g := FirstPane(node.first), FirstPane(node.second);
    Session(Graft(session.tree, f, Split(node.direction, Pane(f), Pane(g), node.ratioMilli)),
            session.started[g := commands[g]])
  }

  /** The session after the first half has grown in place. */
  function FirstGrown(session: Session, node: Node, commands: Commands): Session
    requires node.Split? && Covers(commands, node)
  {
    var s1 := Opened(session, node, commands);
    Session(Graft(s1.tree, FirstPane(node.first), node.first), s1.started + Others(commands, node.first))
  }

  lemma HalvesAreFresh(session: Session, node: Node, commands: Commands)
    requires node.Split? && Covers(commands, node) && Fresh(node, session) && FirstPane(node) in Names(session.tree)
    ensures var s1, s2 := Opened(session, node, commands), FirstGrown(session, node, commands);
      && Perform(session, Opening(node, commands)) == Some(s1)
      && Fresh(node.first, s1) && FirstPane(node.first) in Names(s1.tree)
      && Fresh(node.second, s2) && FirstPane(node.second) in Names(s2.tree)
  {
    var f, g := FirstPane(node.first), FirstPane(node.second);
    var pair := Split(node.direction, Pane(f), Pane(g), node.ratioMilli);
    GraftNames(session.tree, f, pair);
    assert Names(pair) == {f, g};
    GraftNames(Opened(session, node, commands).tree, f, node.first);
  }

  lemma PerformSplit(session: Session, op: Action, s1: Session, a: seq<Action>, s2: Session, b: seq<Action>)
    requires Perform(session, op) == Some(s1) && PerformAll(s1, a) == Some(s2)
    ensures PerformAll(session, [op] + (a + b)) == PerformAll(s2, b)
  {
    assert ([op] + (a + b))[1..] == a + b;
    PerformAllCompose(s1, a, b);
  }

  lemma StartedJoins(started: Commands, commands: Commands, node: Node)
    requires node.Split? && Covers(commands, node) && Distinct(node)
    ensures var g := FirstPane(node.second);
      started[g := commands[g]] + Others(commands, node.first) + Others(commands, node.second)
      == started + Others(commands, node)
  {
  }

  lemma GraftSelf(tree: Node, f: string)
    ensures Graft(tree, f, Pane(f)) == tree
  {
  }

  /** Opening a split and growing both halves is grafting the split. */
  lemma SplitGrafts(tree: Node, direction: string, first: Node, second: Node, ratio: int)
    requires FirstPane(second) !in Names(tree) && FirstPane(second) !in Names(first)
    requires FirstPane(first) != FirstPane(second)
    ensures var f, g := FirstPane(first), FirstPane(second);
      Graft(Graft(Graft(tree, f, Split(direction, Pane(f), Pane(g), ratio)), f, first), g, second)
      == Graft(tree, f, Split(direction, first, second, ratio))
  {
    var f, g := FirstPane(first), FirstPane(second);
    var pair := Split(direction, Pane(f), Pane(g), ratio);
    GraftGraft(tree, f, pair, f, first);
    assert Graft(pair, f, first) == Split(direction, first, Pane(g), ratio);
    GraftGraft(tree, f, Split(direction, first, Pane(g), ratio), g, second);
    GraftAbsent(first, g, second);
  }

  /** Replaying the script rebuilds the tree, directions and ratios included, and starts in each pane
      exactly the command it was given. */
  lemma ReplayRebuilds(root: Node, commands: Commands)
    requires ValidTopology(root) && ValidCommands(root, commands)
    ensures Covers(commands, root)
    ensures Replay(TmuxScript(root, commands)) == Some(Session(root, commands))
  {
    var first := FirstPane(root);
    var session := Session(Pane(first), map[first := commands[first]]);
    UniqueIsDistinct(root);
    ScriptGrafts(root, commands, session);
    assert TmuxScript(root, commands)[1..] == Script(root, commands);
    StartedIsCommands(root, commands);
  }

  lemma StartedIsCommands(root: Node, commands: Commands)
    requires commands.Keys == Names(root)
    ensures FirstPane(root) in commands
    ensures map[FirstPane(root) := commands[FirstPane(root)]] + Others(commands, root) == commands
  {
  }

  /** The pane an action brings up. */
  function Created(actions: seq<Action>): seq<string> {
    if actions == [] then [] else [actions[0].pane] + Created(actions[1..])
  }

  lemma {:induction false} CreatedAppend(a: seq<Action>, b: seq<Action>)
    ensures Created(a + b) == Created(a) + Created(b)
  {
    if a == [] {
      assert a + b == b;
    } else {
      assert (a + b)[1..] == a[1..] + b;
      CreatedAppend(a[1..], b);
    }
  }

  /** Every pane is brought up exactly once. */
  lemma {:induction false} ScriptCreatesEachPaneOnce(node: Node, commands: Commands)
    requires Covers(commands, node)
    ensures multiset(Created(Script(node, commands))) + multiset{FirstPane(node)} == multiset(PaneNames(node))
  {
    match node
    case Pane(_) =>
    case Split(_, first, second, _) =>
      ScriptCreatesEachPaneOnce(first, commands);
      ScriptCreatesEachPaneOnce(second, commands);
      ScriptOfSplit(node, commands);
      var op, a, b := Opening(node, commands), Script(first, commands), Script(second, commands);
      CreatedAppend(a, b);
      CreatedAppend([op], a + b);
      assert Created([op]) == [op.pane];
      OpeningJoins(Created(a), Created(b), FirstPane(first), FirstPane(second), PaneNames(first), PaneNames(second));
  }

  lemma OpeningJoins(a: seq<string>, b: seq<string>, f: string, g: string, m: seq<string>, n: seq<string>)
    requires multiset(a) + multiset{f} == multiset(m) && multiset(b) + multiset{g} == multiset(n)
    ensures multiset([g] + (a + b)) + multiset{f} == multiset(m + n)
  {
    assert multiset([g] + (a + b)) == multiset{g} + (multiset(a) + multiset(b));
    assert multiset(m + n) == multiset(m) + multiset(n);
  }

  /** The script of the repository's four-pane grid, in the order its actions are emitted. */
  lemma FourGridScript(a: seq<string>, b: seq<string>, c: seq<string>, d: seq<string>)
    ensures var root := Split("left-right",
                              Split("top-bottom", Pane("pane-0"), Pane("pane-1"), 500),
                              Split("top-bottom", Pane("pane-2"), Pane("pane-3"), 400), 300);
      var commands: Commands := map["pane-0" := a, "pane-1" := b, "pane-2" := c, "pane-3" := d];
      && Covers(commands, root)
      && TmuxScript(root, commands) ==
         [NewSession("pane-0", a),
          SplitPane("pane-0", "pane-2", "left-right", 300, c),
          SplitPane("pane-0", "pane-1", "top-bottom", 500, b),
          SplitPane("pane-2", "pane-3", "top-bottom", 400, d)]
  {
    var left := Split("top-bottom", Pane("pane-0"), Pane("pane-1"), 500);
    var right := Split("top-bottom", Pane("pane-2"), Pane("pane-3"), 400);
    var commands: Commands := map["pane-0" := a, "pane-1" := b, "pane-2" := c, "pane-3" := d];
    assert Names(left) == {"pane-0", "pane-1"} && Names(right) == {"pane-2", "pane-3"};
    assert Script(left, commands) == [SplitPane("pane-0", "pane-1", "top-bottom", 500, b)];
    assert Script(right, commands) == [SplitPane("pane-2", "pane-3", "top-bottom", 400, d)];
  }
}
