/** An SSH client: commands wait in a list, run in a bounded number of sessions, and are answered. */
module SshClients {
  import opened Wrappers

  type Command = string
  type Plugin = string

  /**
   * A client and its connection: `open` are the commands of the open channels,
   * `started` lists the commands in the order in which channels were opened for
   * them, `answered` those whose channels have closed.
   */
  datatype Client = Client(
    sessions: int, connected: bool, commands: seq<Command>, workList: seq<Command>, openSessions: int,
    open: multiset<Command>, started: seq<Command>, answered: seq<Command>)

  /** Opens channels for the first `n` waiting commands. */
  function StartFirst(c: Client, n: nat): Client
    requires n <= |c.workList|
  {
    c.(workList := c.workList[n..], openSessions := c.openSessions + n,
       open := c.open + multiset(c.workList[..n]), started := c.started + c.workList[..n])
  }

  function Available(c: Client): nat {
    var free := c.sessions - c.openSessions;
    var n := if |c.workList| <= free then |c.workList| else free;
    if n < 0 then 0 else n
  }

  datatype Step = Connect | AddCommands(cmds: seq<Command>) | Close(cmd: Command)

  function AfterConnect(c: Client): Client {
    var d := c.(connected := true);
    StartFirst(d, Available(d))
  }

  function AfterAdd(c: Client, cmds: seq<Command>): Client {
    var d := c.(commands := c.commands + cmds, workList := c.workList + cmds);
    if c.connected then StartFirst(d, Available(d)) else d
  }

  predicate Finished(c: Client) {
    |c.answered| == |c.commands|
  }

  /** The command of a channel is answered as the channel closes. */
  function Answer(c: Client, cmd: Command): Client {
    c.(open := c.open - multiset{cmd}, answered := c.answered + [cmd])
  }

  /** `channelClosed`, once the result has been added. */
  function FreeSession(c: Client): Client {
    var d := c.(openSessions := c.openSessions - 1);
    if !Finished(d) && d.workList != [] then StartFirst(d, 1) else d
  }

  function AfterClose(c: Client, cmd: Command): Client {
    FreeSession(Answer(c, cmd))
  }

  function Next(c: Client, e: Step): Client {
    match e
    case Connect => if c.connected then c else AfterConnect(c)
    case AddCommands(cmds) => AfterAdd(c, cmds)
    case Close(cmd) => if c.connected && cmd in c.open then AfterClose(c, cmd) else c
  }

  function Fresh(sessions: int, commands: seq<Command>): Client {
    Client(sessions, false, commands, commands, 0, multiset{}, [], [])
  }

  function Run(c: Client, es: seq<Step>): Client {
    if es == [] then c else Next(Run(c, es[..|es| - 1]), es[|es| - 1])
  }

  // ----- What every step keeps -----

  /** Commands start in the order in which they were added, each once, and are waiting, open or answered. */
  predicate Conserved(c: Client) {
    c.commands == c.started + c.workList && multiset(c.started) == c.open + multiset(c.answered)
  }

  function Limit(c: Client): nat {
    if c.sessions < 0 then 0 else c.sessions
  }

  predicate Bounded(c: Client) {
    c.openSessions == |c.open| && c.openSessions <= Limit(c)
  }

  /** A connected client with waiting commands has every session in use. */
  predicate NotStalled(c: Client) {
    (c.connected && c.workList != [] ==> c.openSessions == Limit(c)) && (!c.connected ==> c.started == [])
  }

  predicate Inv(c: Client) {
    Conserved(c) && Bounded(c) && NotStalled(c)
  }

  /** Connecting starts the commands that are waiting, as many as there are sessions, and only once. */
  lemma ConnectingStarts(c: Client)
    requires Inv(c)
    ensures Next(c, Connect).connected && (c.connected ==> Next(c, Connect) == c)
    ensures !c.connected ==>
      var n := if |c.commands| <= c.sessions then |c.commands| else if c.sessions < 0 then 0 else c.sessions;
      Next(c, Connect).started == c.commands[..n] && Next(c, Connect).workList == c.commands[n..] &&
      Next(c, Connect).openSessions == n
  {
    if !c.connected {
      assert c.commands == c.workList;
      assert c.openSessions == 0 by { assert |multiset(c.started)| == 0; }
    }
  }

  lemma StartKeeps(c: Client, n: nat)
    requires Conserved(c) && c.openSessions == |c.open| && n <= |c.workList| && c.openSessions + n <= Limit(c)
    ensures Conserved(StartFirst(c, n)) && Bounded(StartFirst(c, n))
  {
    assert c.workList == c.workList[..n] + c.workList[n..];
    assert multiset(c.started + c.workList[..n]) == multiset(c.started) + multiset(c.workList[..n]);
    var d := StartFirst(c, n);
    assert c.started + c.workList == d.started + d.workList;
    assert |multiset(c.workList[..n])| == n;
  }

  lemma CloseKeeps(c: Client, cmd: Command)
    requires Inv(c) && c.connected && cmd in c.open
    ensures Inv(AfterClose(c, cmd))
    ensures Finished(AfterClose(c, cmd)) <==> AfterClose(c, cmd).workList == [] && AfterClose(c, cmd).openSessions == 0
  {
    var d := c.(open := c.open - multiset{cmd}, answered := c.answered + [cmd], openSessions := c.openSessions - 1);
    assert multiset(d.answered) == multiset(c.answered) + multiset{cmd};
    assert c.open == d.open + multiset{cmd};
    Counts(d);
    if !Finished(d) && d.workList != [] {
      StartKeeps(d, 1);
      Counts(StartFirst(d, 1));
    }
  }

  lemma Counts(c: Client)
    requires Conserved(c)
    ensures |c.commands| == |c.workList| + |c.open| + |c.answered|
    ensures Finished(c) <==> c.workList == [] && c.open == multiset{}
  {
    assert |multiset(c.started)| == |c.open| + |multiset(c.answered)|;
  }

  lemma NextKeeps(c: Client, e: Step)
    requires Inv(c)
    ensures Inv(Next(c, e))
  {
    match e {
      case Connect =>
        if !c.connected {
          var d := c.(connected := true);
          assert d.open == multiset{} by { assert multiset(c.started) == multiset{}; }
          StartKeeps(d, Available(d));
        }
      case AddCommands(cmds) =>
        var d := c.(commands := c.commands + cmds, workList := c.workList + cmds);
        assert c.started + c.workList + cmds == d.started + d.workList;
        if c.connected { StartKeeps(d, Available(d)); }
      case Close(cmd) =>
        if c.connected && cmd in c.open { CloseKeeps(c, cmd); }
    }
  }

  /**
   * On every run: commands are conserved and start in order, the sessions stay
   * within bounds, and a connected client with waiting commands has them all in
   * use.
   */
  lemma {:induction false} RunKeepsInv(sessions: int, commands: seq<Command>, es: seq<Step>)
    ensures Inv(Run(Fresh(sessions, commands), es))
  {
    if es == [] {
      assert [] + commands == commands;
    } else {
      RunKeepsInv(sessions, commands, es[..|es| - 1]);
      NextKeeps(Run(Fresh(sessions, commands), es[..|es| - 1]), es[|es| - 1]);
    }
  }

  /** On every run the client counts as finished exactly when nothing is waiting or open. */
  lemma FinishedMeansAllAnswered(sessions: int, commands: seq<Command>, es: seq<Step>)
    ensures var c := Run(Fresh(sessions, commands), es);
      Finished(c) <==> c.workList == [] && c.open == multiset{}
  {
    RunKeepsInv(sessions, commands, es);
    Counts(Run(Fresh(sessions, commands), es));
  }

  /** Closing whichever channel comes first, again and again. */
  predicate ClosesOpen(c: Client, es: seq<Step>) {
    es == [] ||
    (var n := |es| - 1;
     ClosesOpen(c, es[..n]) && es[n].Close? && es[n].cmd in Run(c, es[..n]).open)
  }

  /** `d` is `c` after `n` more answers. */
  predicate Drained(c: Client, d: Client, n: nat) {
    Inv(d) && d.connected && d.commands == c.commands && |d.answered| == |c.answered| + n
  }

  lemma CloseDrains(c: Client, d: Client, n: nat, cmd: Command)
    requires Drained(c, d, n) && cmd in d.open
    ensures Drained(c, AfterClose(d, cmd), n + 1)
  {
    CloseKeeps(d, cmd);
  }

  lemma {:induction false} ClosingDrains(c: Client, es: seq<Step>)
    requires Inv(c) && c.connected && ClosesOpen(c, es)
    ensures Drained(c, Run(c, es), |es|) && Run(c, es).sessions == c.sessions
  {
    if es != [] {
      var n := |es| - 1;
      ClosingDrains(c, es[..n]);
      CloseDrains(c, Run(c, es[..n]), n, es[n].cmd);
    }
  }

  /**
   * A connected client with at least one session never gets stuck: until it has
   * finished some channel is open, and it has finished, with every command
   * answered as often as it was added, after exactly as many closes as there
   * were unanswered commands, in whatever order they come.
   */
  lemma ClosingFinishes(c: Client, es: seq<Step>)
    requires Inv(c) && c.connected && c.sessions > 0 && ClosesOpen(c, es)
    ensures var d := Run(c, es);
      |es| <= |c.commands| - |c.answered| &&
      (Finished(d) <==> |es| == |c.commands| - |c.answered|) &&
      (Finished(d) ==> multiset(d.answered) == multiset(c.commands)) &&
      (!Finished(d) ==> d.open != multiset{})
  {
    ClosingDrains(c, es);
    var d := Run(c, es);
    Counts(d);
    if Finished(d) { assert d.started + [] == d.started; }
  }

  function PluginOf(cmdmap: map<Command, Plugin>, cmd: Command): Option<Plugin> {
    if cmd in cmdmap then Some(cmdmap[cmd]) else None
  }

  /** Each result names the plugin of the command it answers. */
  predicate Matched(results: seq<(Option<Plugin>, string)>, answered: seq<Command>, cmdmap: map<Command, Plugin>) {
    |results| == |answered| && forall i :: 0 <= i < |results| ==> results[i].0 == PluginOf(cmdmap, answered[i])
  }

  lemma MatchedOneMore(
    results: seq<(Option<Plugin>, string)>, answered: seq<Command>, cmdmap: map<Command, Plugin>,
    cmd: Command, data: string)
    requires Matched(results, answered, cmdmap)
    ensures Matched(results + [(PluginOf(cmdmap, cmd), data)], answered + [cmd], cmdmap)
  {
  }

  class SshClient {
    const concurrentSessions: int
    const cmdmap: map<Command, Plugin>
    var commands: seq<Command>
    var results: seq<(Option<Plugin>, string)>
    var workList: seq<Command>
    var openSessions: int
    var connected: bool
    var channels: multiset<Command>     // the channels of the connection
    ghost var started: seq<Command>
    ghost var answered: seq<Command>

    ghost function View(): Client
      reads this
    {
      Client(concurrentSessions, connected, commands, workList, openSessions, channels, started, answered)
    }

    ghost predicate Valid()
      reads this
    {
      Inv(View()) && Matched(results, answered, cmdmap)
    }

    constructor (sessions: int, plugins: seq<(Command, Plugin)>)
      ensures Valid() && View() == Fresh(sessions, seq(|plugins|, i requires 0 <= i < |plugins| => plugins[i].0))
      ensures results == []
    {
      concurrentSessions := sessions;
      var cmds: seq<Command> := [];
      var plugged: map<Command, Plugin> := map[];
      for i := 0 to |plugins|
        invariant cmds == seq(i, j requires 0 <= j < i => plugins[j].0)
      {
        plugged := plugged[plugins[i].0 := plugins[i].1];
        cmds := cmds + [plugins[i].0];
      }
      cmdmap := plugged;
      commands, workList, results := cmds, cmds, [];
      openSessions, connected, channels, started, answered := 0, false, multiset{}, [], [];
      new;
      RunKeepsInv(sessions, cmds, []);
    }

    method OpenNext()
      requires workList != []
      modifies this`workList, this`openSessions, this`channels, this`started
      ensures View() == StartFirst(old(View()), 1)
    {
      var cmd := workList[0];
      assert workList[..1] == [cmd];
      workList := workList[1..];
      openSessions := openSessions + 1;
      channels := channels + multiset{cmd};
      started := started + [cmd];
    }

    method RunCommands()
      modifies this`workList, this`openSessions, this`channels, this`started
      ensures View() == StartFirst(old(View()), Available(old(View())))
    {
      var availSessions := concurrentSessions - openSessions;
      var n := if |workList| <= availSessions then |workList| else availSessions;
      OpenFirst(if n < 0 then 0 else n);
    }

    method OpenFirst(n: nat)
      requires n <= |workList|
      modifies this`workList, this`openSessions, this`channels, this`started
      ensures View() == StartFirst(old(View()), n)
    {
      StartNone(View());
      for i := 0 to n
        invariant View() == StartFirst(old(View()), i)
      {
        StartOneMore(old(View()), i);
        OpenNext();
      }
    }

    method ServiceStarted()
      requires Valid() && !connected
      modifies this
      ensures Valid() && View() == AfterConnect(old(View())) && results == old(results)
    {
      NextKeeps(View(), Connect);
      connected := true;
      RunCommands();
    }

    method AddCommand(cmds: seq<Command>)
      requires Valid()
      modifies this
      ensures Valid() && View() == AfterAdd(old(View()), cmds) && results == old(results)
    {
      NextKeeps(View(), AddCommands(cmds));
      commands := commands + cmds;
      workList := workList + cmds;
      if connected { RunCommands(); }
    }

    /** A channel closes: its result is added, and the client either has finished or starts a waiting command. */
    method CommandClosed(cmd: Command, data: string) returns (finished: bool)
      requires Valid() && connected && cmd in channels
      modifies this
      ensures Valid() && View() == AfterClose(old(View()), cmd)
      ensures results == old(results) + [(PluginOf(cmdmap, cmd), data)]
      ensures finished <==> workList == [] && openSessions == 0
    {
      CloseKeeps(View(), cmd);
      AddResult(cmd, data);
      finished := ChannelClosed();
    }

    method AddResult(cmd: Command, data: string)
      requires Matched(results, answered, cmdmap)
      modifies this`results, this`answered, this`channels
      ensures View() == Answer(old(View()), cmd) && Matched(results, answered, cmdmap)
      ensures results == old(results) + [(PluginOf(cmdmap, cmd), data)]
    {
      MatchedOneMore(results, answered, cmdmap, cmd, data);
      results := results + [(PluginOf(cmdmap, cmd), data)];
      answered := answered + [cmd];
      channels := channels - multiset{cmd};
    }

    method ChannelClosed() returns (finished: bool)
      requires |results| == |answered|
      modifies this`workList, this`openSessions, this`channels, this`started
      ensures View() == FreeSession(old(View())) && (finished <==> |results| == |commands|)
    {
      openSessions := openSessions - 1;
      finished := |results| == |commands|;
      if !finished && workList != [] { OpenNext(); }
    }
  }

  lemma StartNone(c: Client)
    ensures StartFirst(c, 0) == c
  {
    assert c.workList[0..] == c.workList && c.workList[..0] == [] && c.started + [] == c.started;
  }

  lemma StartOneMore(c: Client, i: nat)
    requires i < |c.workList|
    ensures StartFirst(c, i).workList != [] && StartFirst(StartFirst(c, i), 1) == StartFirst(c, i + 1)
  {
    var w := c.workList;
    assert w[i..][..1] == [w[i]] && w[i..][1..] == w[i + 1..];
    assert w[..i + 1] == w[..i] + [w[i]];
    assert c.started + w[..i] + [w[i]] == c.started + w[..i + 1];
    assert multiset(w[..i + 1]) == multiset(w[..i]) + multiset{w[i]};
  }
}
