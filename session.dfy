/** The terminal session as a pure state machine: how one input event is
    dispatched, and how a run folds the events until the session terminates.
    The client class in TerminalClient is proved to behave as `Play` says. */
module Session {
  import opened Strings
  import opened Responder

  /** One (user input, bot reply) pair of the in-memory transcript. */
  type Exchange = (string, string)

  /** How many exchanges the `history` command shows. */
  const HISTORY_WINDOW: nat := 10

  const QUIT_WORDS: seq<string> := ["quit", "exit", "bye"]

  /** A read from the terminal: a line, end of input, or a keyboard interrupt. */
  datatype Event = Line(raw: string) | EndOfInput | Interrupt

  datatype Command = Blank | Quit | ShowHistory | Clear | Chat(text: string)

  /** What the client shows, as abstract events rather than printed text. */
  datatype Output =
    | Banner
    | Initializing
    | Ready
    | InitFailed(reason: string)
    | Farewell
    | NoHistory
    | HistoryShown(entries: seq<(nat, Exchange)>)
    | ScreenCleared
    | BotReply(text: string)
    | TurnError(reason: string)

  /** The meaning of an input line: the stripped line is matched,
      case-insensitively, against the commands; anything else is chat. */
  function Classify(raw: string): Command {
    var t := Strip(raw);
    if t == [] then Blank
    else if Lower(t) in QUIT_WORDS then Quit
    else if Lower(t) == "history" then ShowHistory
    else if Lower(t) == "clear" then Clear
    else Chat(t)
  }

  /** Each command in terms of the raw line; chat text is the stripped,
      non-empty line that is no command. */
  lemma ClassifySpec(raw: string)
    ensures Classify(raw) == Blank <==> AllSpace(raw)
    ensures Classify(raw) == Quit <==> Lower(Strip(raw)) in QUIT_WORDS
    ensures Classify(raw) == ShowHistory <==> Lower(Strip(raw)) == "history"
    ensures Classify(raw) == Clear <==> Lower(Strip(raw)) == "clear"
    ensures Classify(raw).Chat? <==> !AllSpace(raw) && Lower(Strip(raw)) !in QUIT_WORDS + ["history", "clear"]
    ensures Classify(raw).Chat? ==> var t := Classify(raw).text; t == Strip(raw) && t != [] && Trimmed(t)
  {
    StripSpec(raw);
  }

  predicate IsChat(ev: Event) {
    ev.Line? && Classify(ev.raw).Chat?
  }

  /** The events after which the loop stops. */
  predicate Terminates(ev: Event) {
    ev.EndOfInput? || ev.Interrupt? || (ev.Line? && Classify(ev.raw) == Quit)
  }

  /** The inputs an event passes to the responder: the stripped line for chat,
      nothing otherwise. */
  function Asked(ev: Event): (q: seq<string>)
    ensures |q| <= 1
    ensures q != [] <==> IsChat(ev)
    ensures IsChat(ev) ==> q == [Strip(ev.raw)]
  {
    if IsChat(ev) then [Classify(ev.raw).text] else []
  }

  /** `h[-n:]` in Python. */
  function Last<T>(h: seq<T>, n: nat): (r: seq<T>)
    ensures |r| == (if |h| < n then |h| else n)
    ensures r == h[|h| - |r|..]
  {
    if |h| <= n then h else h[|h| - n..]
  }

  function Numbered(r: seq<Exchange>): seq<(nat, Exchange)> {
    seq(|r|, i requires 0 <= i < |r| => (i + 1, r[i]))
  }

  /** What the `history` command shows for transcript `h`. */
  function HistoryView(h: seq<Exchange>): (v: Output)
    ensures v == NoHistory <==> h == []
  {
    if h == [] then NoHistory else HistoryShown(Numbered(Last(h, HISTORY_WINDOW)))
  }

  /** The effect of one event: whether the loop goes on, the new transcript
      and what is shown. */
  datatype Effect = Effect(continues: bool, history: seq<Exchange>, outputs: seq<Output>)

  /** One iteration of the loop, in a session whose responder answers its n-th
      query `t` with `engine(n, t)`. */
  function Turn(h: seq<Exchange>, ev: Event, engine: (nat, string) -> Reply, n: nat): Effect {
    match ev
    case EndOfInput => Effect(false, h, [Farewell])
    case Interrupt => Effect(false, h, [Farewell])
    case Line(raw) =>
      match Classify(raw)
      case Blank => Effect(true, h, [])
      case Quit => Effect(false, h, [Farewell])
      case ShowHistory => Effect(true, h, [HistoryView(h)])
      case Clear => Effect(true, h, [ScreenCleared, Banner])
      case Chat(t) =>
        match engine(n, t)
        case Answer(b) => Effect(true, h + [(t, b)], [BotReply(b)])
        case Failure(e) => Effect(true, h, [TurnError(e)])
        case Interrupted => Effect(false, h, [Farewell])
  }

  datatype Phase = Running | Terminated

  /** The whole observable state of a session: its phase, the transcript, the
      inputs sent to the responder, how many events were read and everything
      shown so far. */
  datatype State = State(phase: Phase, history: seq<Exchange>, queries: seq<string>,
                         consumed: nat, outputs: seq<Output>)

  function Next(s: State, ev: Event, engine: (nat, string) -> Reply): State {
    var e := Turn(s.history, ev, engine, |s.queries|);
    State(if e.continues then Running else Terminated, e.history, s.queries + Asked(ev),
          s.consumed + 1, s.outputs + e.outputs)
  }

  /** Reads the events one by one until the session terminates or the events
      run out. */
  function Play(s: State, events: seq<Event>, engine: (nat, string) -> Reply): State
    decreases |events|
  {
    if s.phase == Terminated || events == [] then s
    else Play(Next(s, events[0], engine), events[1..], engine)
  }

  // ----- Properties of one turn -----

  /** Only a chat line the responder answers changes the transcript, and it
      appends exactly (stripped input, reply). */
  lemma TranscriptChange(h: seq<Exchange>, ev: Event, engine: (nat, string) -> Reply, n: nat)
    ensures var e := Turn(h, ev, engine, n);
      if IsChat(ev) && engine(n, Strip(ev.raw)).Answer?
      then e.history == h + [(Strip(ev.raw), engine(n, Strip(ev.raw)).text)]
      else e.history == h
  {
  }

  /** The loop stops exactly on end of input, an interrupt (while reading or
      while the responder works) and the quit words; it then says goodbye
      and records nothing for that turn. */
  lemma StopsExactlyOnTerminator(h: seq<Exchange>, ev: Event, engine: (nat, string) -> Reply, n: nat)
    ensures var interrupted := IsChat(ev) && engine(n, Strip(ev.raw)).Interrupted?;
      && (Turn(h, ev, engine, n).continues <==> !Terminates(ev) && !interrupted)
      && (Terminates(ev) || interrupted ==> Turn(h, ev, engine, n) == Effect(false, h, [Farewell]))
  {
  }

  /** The responder is consulted only for chat lines: for every other event
      the turn is the same whatever the responder would answer. */
  lemma ResponderOnlyForChat(h: seq<Exchange>, ev: Event, e1: (nat, string) -> Reply, n1: nat,
                              e2: (nat, string) -> Reply, n2: nat)
    requires Asked(ev) == []
    ensures Turn(h, ev, e1, n1) == Turn(h, ev, e2, n2)
  {
  }

  /** A line of whitespace is ignored: no output, no query, same transcript. */
  lemma BlankLineIgnored(h: seq<Exchange>, raw: string, engine: (nat, string) -> Reply, n: nat)
    requires AllSpace(raw)
    ensures Turn(h, Line(raw), engine, n) == Effect(true, h, [])
    ensures Asked(Line(raw)) == []
  {
    StripSpec(raw);
  }

  /** A word set off by whitespace is recognised as if typed on its own. */
  lemma ClassifyPadded(lead: string, word: string, trail: string)
    requires AllSpace(lead) && AllSpace(trail) && Trimmed(word)
    ensures Classify(lead + word + trail) == Classify(word)
  {
    StripOf(lead, word, trail);
    assert [] + word + [] == word;
    StripOf([], word, []);
    ClassifyByStrip(lead + word + trail, word);
  }

  /** Classify looks at a line only through its stripped form. */
  lemma ClassifyByStrip(a: string, b: string)
    requires Strip(a) == Strip(b)
    ensures Classify(a) == Classify(b)
  {
  }

  /** Commands are case-insensitive: two lines equal up to case are the same
      command, or both chat. */
  lemma {:induction false} ClassifyIgnoresCase(a: string, b: string)
    requires Lower(a) == Lower(b)
    ensures Classify(a) == Classify(b) || (Classify(a).Chat? && Classify(b).Chat?)
  {
    StripLower(a);
    StripLower(b);
    LowerIdempotent(Strip(a));
    LowerIdempotent(Strip(b));
    assert |Strip(a)| == |Lower(Strip(a))| == |Lower(Strip(b))| == |Strip(b)|;
  }

  /** "quit", "exit" and "bye" in any case and with any surrounding whitespace
      end the session with a farewell, without asking the responder. */
  lemma {:induction false} QuitInAnyCase(h: seq<Exchange>, lead: string, word: string, trail: string,
                                         engine: (nat, string) -> Reply, n: nat)
    requires AllSpace(lead) && AllSpace(trail)
    requires Lower(word) in QUIT_WORDS
    ensures Terminates(Line(lead + word + trail))
    ensures Turn(h, Line(lead + word + trail), engine, n) == Effect(false, h, [Farewell])
    ensures Asked(Line(lead + word + trail)) == []
  {
    var lw := Lower(word);
    assert lw[0] in "qeb" && lw[|lw| - 1] in "ttee";
    assert !IsSpace(lw[0]) && !IsSpace(lw[|lw| - 1]);
    assert Trimmed(word);
    ClassifyPadded(lead, word, trail);
  }

  /** The `history` command leaves the transcript alone and keeps running;
      it reports "no history" exactly when the transcript is empty. */
  lemma HistoryCommand(h: seq<Exchange>, raw: string, engine: (nat, string) -> Reply, n: nat)
    requires Lower(Strip(raw)) == "history"
    ensures Turn(h, Line(raw), engine, n).continues
    ensures Turn(h, Line(raw), engine, n).history == h
    ensures Turn(h, Line(raw), engine, n).outputs == [HistoryView(h)]
    ensures Turn(h, Line(raw), engine, n).outputs == [NoHistory] <==> h == []
    ensures Asked(Line(raw)) == []
  {
  }

  /** The window shows the last min(10, |h|) exchanges in the order they were
      made, numbered from 1. */
  lemma HistoryWindow(h: seq<Exchange>)
    requires h != []
    ensures HistoryView(h).HistoryShown?
    ensures var entries := HistoryView(h).entries;
      && |entries| == (if |h| < HISTORY_WINDOW then |h| else HISTORY_WINDOW)
      && forall i :: 0 <= i < |entries| ==> entries[i] == (i + 1, h[|h| - |entries| + i])
  {
  }

  /** Appending an exchange slides the window by one once it is full. */
  lemma WindowSlides(h: seq<Exchange>, x: Exchange)
    ensures Last(h + [x], HISTORY_WINDOW)
         == (if |h| < HISTORY_WINDOW then Last(h, HISTORY_WINDOW) else Last(h, HISTORY_WINDOW)[1..]) + [x]
  {
    if |h| >= HISTORY_WINDOW {
      assert (h + [x])[|h| + 1 - HISTORY_WINDOW..] == h[|h| + 1 - HISTORY_WINDOW..] + [x];
    }
  }

  /** `clear` redraws the screen and changes nothing else. */
  lemma ClearKeepsTranscript(h: seq<Exchange>, raw: string, engine: (nat, string) -> Reply, n: nat)
    requires Lower(Strip(raw)) == "clear"
    ensures Turn(h, Line(raw), engine, n) == Effect(true, h, [ScreenCleared, Banner])
    ensures Asked(Line(raw)) == []
  {
  }

  // ----- Properties of a run -----

  /** A chat line asks the responder for the stripped line and records the
      reply if there is one. */
  lemma ChatStep(s: State, raw: string, engine: (nat, string) -> Reply)
    requires Classify(raw).Chat?
    ensures var r := Next(s, Line(raw), engine);
      var reply := engine(|s.queries|, Strip(raw));
      && (r.phase == Running <==> !reply.Interrupted?)
      && r.queries == s.queries + [Strip(raw)]
      && r.consumed == s.consumed + 1
      && r.history == if reply.Answer? then s.history + [(Strip(raw), reply.text)] else s.history
  {
  }

  lemma {:induction false} PlayAppend(s: State, a: seq<Event>, b: seq<Event>, engine: (nat, string) -> Reply)
    ensures Play(s, a + b, engine) == Play(Play(s, a, engine), b, engine)
    decreases |a|
  {
    if s.phase == Terminated {
    } else if a == [] {
      assert a + b == b;
    } else {
      assert (a + b)[0] == a[0];
      assert (a + b)[1..] == a[1..] + b;
      PlayAppend(Next(s, a[0], engine), a[1..], b, engine);
    }
  }

  /** A run only extends the transcript, the queries and the display; it
      reads every event unless it terminates; and every new transcript entry
      cost one query. */
  lemma {:induction false} PlayExtends(s: State, events: seq<Event>, engine: (nat, string) -> Reply)
    ensures var r := Play(s, events, engine);
      && s.history <= r.history && s.queries <= r.queries && s.outputs <= r.outputs
      && s.consumed <= r.consumed <= s.consumed + |events|
      && (r.consumed < s.consumed + |events| ==> r.phase == Terminated)
      && (s.phase == Terminated ==> r == s)
      && |r.history| - |s.history| <= |r.queries| - |s.queries|
    decreases |events|
  {
    if s.phase == Running && events != [] {
      PlayExtends(Next(s, events[0], engine), events[1..], engine);
    }
  }

  /** Once a terminating event is read, the session is over: the transcript
      is as it was before that event and the remaining events are never read. */
  lemma StopsAtTerminator(s: State, before: seq<Event>, ev: Event, after: seq<Event>,
                          engine: (nat, string) -> Reply)
    requires Play(s, before, engine).phase == Running
    requires Terminates(ev)
    ensures var m := Play(s, before, engine);
      Play(s, before + [ev] + after, engine)
        == State(Terminated, m.history, m.queries, m.consumed + 1, m.outputs + [Farewell])
  {
    var m := Play(s, before, engine);
    StopsExactlyOnTerminator(m.history, ev, engine, |m.queries|);
    assert Play(m, [ev], engine) == Next(m, ev, engine);
    PlayAppend(s, before, [ev], engine);
    PlayAppend(s, before + [ev], after, engine);
  }

  /** A failed reply skips only its own turn: the next chat line the
      responder answers is appended right after the earlier entries. */
  lemma RecoversAfterFailure(s: State, first: string, second: string, engine: (nat, string) -> Reply)
    requires s.phase == Running
    requires Classify(first).Chat? && Classify(second).Chat?
    requires engine(|s.queries|, Strip(first)).Failure?
    requires engine(|s.queries| + 1, Strip(second)).Answer?
    ensures var r := Play(s, [Line(first), Line(second)], engine);
      && r.phase == Running
      && r.history == s.history + [(Strip(second), engine(|s.queries| + 1, Strip(second)).text)]
  {
    var s1 := Next(s, Line(first), engine);
    var s2 := Next(s1, Line(second), engine);
    assert s1.phase == Running;
    ChatStep(s, first, engine);
    ChatStep(s1, second, engine);
    assert [Line(first), Line(second)][1..] == [Line(second)];
    assert Play(s1, [Line(second)], engine) == Play(s2, [], engine) == s2;
  }

  /** Chat lines that the responder all answers append one exchange each, in
      order, after the transcript the run started with. */
  lemma {:induction false} AnsweredChats(s: State, events: seq<Event>, engine: (nat, string) -> Reply)
    decreases |events|
    requires s.phase == Running
    requires forall i :: 0 <= i < |events| ==>
      events[i].Line? && Classify(events[i].raw).Chat? && engine(|s.queries| + i, Strip(events[i].raw)).Answer?
    ensures var r := Play(s, events, engine);
      && r.phase == Running
      && |r.history| == |s.history| + |events|
      && r.history[..|s.history|] == s.history
      && forall i :: 0 <= i < |events| ==>
           r.history[|s.history| + i] == (Strip(events[i].raw), engine(|s.queries| + i, Strip(events[i].raw)).text)
  {
    if events != [] {
      var s1 := Next(s, events[0], engine);
      ChatStep(s, events[0].raw, engine);
      var rest := events[1..];
      forall i | 0 <= i < |rest|
        ensures rest[i].Line? && Classify(rest[i].raw).Chat? && engine(|s1.queries| + i, Strip(rest[i].raw)).Answer?
      {
        assert rest[i] == events[i + 1];
      }
      AnsweredChats(s1, rest, engine);
      var r := Play(s1, rest, engine);
      assert r.history[..|s.history|] == r.history[..|s1.history|][..|s.history|];
      forall i | 0 <= i < |events|
        ensures r.history[|s.history| + i]
             == (Strip(events[i].raw), engine(|s.queries| + i, Strip(events[i].raw)).text)
      {
        if i == 0 {
          assert r.history[|s.history|] == r.history[..|s1.history|][|s.history|];
        } else {
          assert events[i] == rest[i - 1];
          assert |s.history| + i == |s1.history| + (i - 1);
        }
      }
    }
  }

  /** After ten or more answered chat turns, `history` shows exactly the
      last ten of them, most recent last. */
  lemma HistoryAfterManyTurns(s: State, events: seq<Event>, engine: (nat, string) -> Reply)
    requires s.phase == Running
    requires |events| >= HISTORY_WINDOW
    requires forall i :: 0 <= i < |events| ==>
      events[i].Line? && Classify(events[i].raw).Chat? && engine(|s.queries| + i, Strip(events[i].raw)).Answer?
    ensures var view := HistoryView(Play(s, events, engine).history);
      && view.HistoryShown?
      && |view.entries| == HISTORY_WINDOW
      && forall k :: 0 <= k < HISTORY_WINDOW ==>
           var i := |events| - HISTORY_WINDOW + k;
           view.entries[k] == (k + 1, (Strip(events[i].raw), engine(|s.queries| + i, Strip(events[i].raw)).text))
  {
    var h := Play(s, events, engine).history;
    AnsweredChats(s, events, engine);
    HistoryWindow(h);
    var entries := HistoryView(h).entries;
    forall k | 0 <= k < HISTORY_WINDOW
      ensures var i := |events| - HISTORY_WINDOW + k;
        entries[k] == (k + 1, (Strip(events[i].raw), engine(|s.queries| + i, Strip(events[i].raw)).text))
    {
      var i := |events| - HISTORY_WINDOW + k;
      assert |h| - |entries| + k == |s.history| + i;
    }
  }
}
