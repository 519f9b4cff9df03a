/** The terminal chat client: an object holding the in-memory transcript,
    whose `Run` loop reads events until the session terminates. Every method
    is proved to do what the matching function of module Session says. */
module TerminalClient {
  import opened Strings
  import opened Responder
  import opened Session

  class TerminalChatClient {
    const bot: BotManager
    /** The in-memory transcript, oldest exchange first. */
    var chatHistory: seq<Exchange>
    var phase: Phase
    /** Everything shown on the terminal so far. */
    var display: seq<Output>

    constructor (bot: BotManager)
      ensures this.bot == bot
      ensures chatHistory == [] && phase == Running && display == []
    {
      this.bot := bot;
      chatHistory := [];
      phase := Running;
      display := [];
    }

    /** The session state as the specification sees it, after `consumed`
        events. */
    ghost function Current(consumed: nat): State
      reads this, bot
    {
      State(phase, chatHistory, bot.queries, consumed, display)
    }

    method PrintHeader()
      modifies this`display
      ensures display == old(display) + [Banner]
    {
      display := display + [Banner];
    }

    /** The last (at most ten) exchanges, numbered from 1, oldest first. */
    method RecentEntries() returns (entries: seq<(nat, Exchange)>)
      ensures entries == Numbered(Last(chatHistory, HISTORY_WINDOW))
    {
      var start := if |chatHistory| > HISTORY_WINDOW then |chatHistory| - HISTORY_WINDOW else 0;
      var window := chatHistory[start..];
      entries := [];
      var i := 0;
      while i < |window|
        invariant 0 <= i <= |window|
        invariant |entries| == i
        invariant forall k :: 0 <= k < i ==> entries[k] == (k + 1, window[k])
      {
        entries := entries + [(i + 1, window[i])];
        i := i + 1;
      }
    }

    method ShowHistory()
      modifies this`display
      ensures display == old(display) + [HistoryView(chatHistory)]
    {
      if chatHistory == [] {
        display := display + [NoHistory];
        return;
      }
      var entries := RecentEntries();
      display := display + [HistoryShown(entries)];
    }

    method SaveToHistory(userMessage: string, botResponse: string)
      modifies this`chatHistory
      ensures chatHistory == old(chatHistory) + [(userMessage, botResponse)]
    {
      chatHistory := chatHistory + [(userMessage, botResponse)];
    }

    /** One pass of the read loop: dispatch one event. */
    method Step(ev: Event) returns (continues: bool)
      requires bot.isTrained
      modifies this`chatHistory, this`display, bot`isTrained, bot`queries
      ensures bot.isTrained
      ensures var e := Turn(old(chatHistory), ev, bot.engine, |old(bot.queries)|);
        continues == e.continues && chatHistory == e.history && display == old(display) + e.outputs
      ensures bot.queries == old(bot.queries) + Asked(ev)
    {
      match ev {
        case EndOfInput =>
          display := display + [Farewell];
          continues := false;
        case Interrupt =>
          display := display + [Farewell];
          continues := false;
        case Line(raw) =>
          var input := Strip(raw);
          StripSpec(raw);
          if input == [] {
            continues := true;
            return;
          }
          var lowered := Lower(input);
          if lowered in QUIT_WORDS {
            display := display + [Farewell];
            continues := false;
          } else if lowered == "history" {
            ShowHistory();
            continues := true;
          } else if lowered == "clear" {
            display := display + [ScreenCleared];
            PrintHeader();
            continues := true;
          } else {
            var reply := bot.GetResponse(input);
            match reply {
              case Answer(text) =>
                display := display + [BotReply(text)];
                SaveToHistory(input, text);
              case Failure(reason) =>
                display := display + [TurnError(reason)];
              case Interrupted =>
                display := display + [Farewell];
            }
            continues := !reply.Interrupted?;
          }
      }
    }

    /** Shows the header, trains the bot and, if training succeeded, reads
        events until the session terminates or the events run out. */
    method Run(events: seq<Event>) returns (consumed: nat)
      modifies this, bot`isTrained, bot`queries
      ensures bot.isTrained == (old(bot.isTrained) || bot.trainingSucceeds)
      ensures !bot.isTrained ==>
        && phase == Terminated && consumed == 0
        && chatHistory == old(chatHistory) && bot.queries == old(bot.queries)
        && display == old(display) + [Banner, Initializing, InitFailed(bot.trainingError)]
      ensures bot.isTrained ==>
        Current(consumed)
          == Play(State(Running, old(chatHistory), old(bot.queries), 0,
                        old(display) + [Banner, Initializing, Ready]),
                  events, bot.engine)
    {
      PrintHeader();
      display := display + [Initializing];
      var training := bot.TrainBot();
      if training.TrainingFailed? {
        display := display + [InitFailed(training.reason)];
        phase := Terminated;
        return 0;
      }
      display := display + [Ready];
      phase := Running;
      consumed := 0;
      ghost var start := Current(0);
      assert start == State(Running, old(chatHistory), old(bot.queries), 0,
                            old(display) + [Banner, Initializing, Ready]);
      while consumed < |events| && phase == Running
        invariant consumed <= |events|
        invariant bot.isTrained
        invariant Play(start, events, bot.engine) == Play(Current(consumed), events[consumed..], bot.engine)
      {
        ghost var before := Current(consumed);
        var continues := Step(events[consumed]);
        if !continues {
          phase := Terminated;
        }
        assert Current(consumed + 1) == Next(before, events[consumed], bot.engine);
        assert events[consumed..][1..] == events[consumed + 1..];
        consumed := consumed + 1;
      }
      if consumed == |events| {
        assert events[consumed..] == [];
      }
      assert Play(Current(consumed), events[consumed..], bot.engine) == Current(consumed);
    }
  }

  /** A fresh client on a fresh bot, run once: what the chat entry point
      does. Training fails: the loop is never entered, no input is read and
      the transcript stays empty. */
  method SessionWithFailedTraining(error: string, engine: (nat, string) -> Reply, events: seq<Event>)
    returns (history: seq<Exchange>, consumed: nat, shown: seq<Output>)
    ensures history == [] && consumed == 0
    ensures shown == [Banner, Initializing, InitFailed(error)]
  {
    var bot := new BotManager(false, error, engine);
    var client := new TerminalChatClient(bot);
    consumed := client.Run(events);
    history, shown := client.chatHistory, client.display;
  }

  /** A fresh client on a fresh bot whose training succeeds: the session
      ends as `Play` says, starting from an empty transcript, and whatever
      it records obeys the properties proved about `Play`. */
  method TrainedSession(engine: (nat, string) -> Reply, events: seq<Event>)
    returns (phase: Phase, history: seq<Exchange>, queries: seq<string>, consumed: nat, shown: seq<Output>)
    ensures State(phase, history, queries, consumed, shown)
         == Play(State(Running, [], [], 0, [Banner, Initializing, Ready]), events, engine)
    ensures consumed <= |events| && (consumed < |events| ==> phase == Terminated)
    ensures |history| <= |queries|
  {
    var bot := new BotManager(true, "", engine);
    var client := new TerminalChatClient(bot);
    assert client.display + [Banner, Initializing, Ready] == [Banner, Initializing, Ready];
    consumed := client.Run(events);
    phase, history, queries, shown := client.phase, client.chatHistory, bot.queries, client.display;
    PlayExtends(State(Running, [], [], 0, [Banner, Initializing, Ready]), events, engine);
  }
}
