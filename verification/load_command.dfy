/** The `loaddatatap` management command (`datatap/management/commands/loaddatatap.py`): the first
    token after the options names the source tap and the rest are its arguments; `handle` copies
    the source into a destination tap chosen explicitly or detected from the source. */
module LoadCommand {
  import opened Errors
  import opened ArgvSplit
  import Registry

  /** The result of `run_from_argv`: the help text, or the source tap that was loaded. */
  datatype Invocation =
    | Help
    | Load(options: seq<string>, source: string, sourceArgs: seq<string>, sourceClass: Registry.ClassName)

  function RunFromArgv(reg: Registry.Registry, argv: seq<string>): (r: Result<Invocation>)
    ensures |argv| < 2 ==> r.Err?
    ensures |argv| >= 2 && (forall k :: 2 <= k < |argv| ==> IsOption(argv[k])) ==>
              r == Err(IndexError("pop from empty list"))
    ensures r == Ok(Help) <==>
              |argv| >= 2 && |SplitOptions(argv[2..]).1| > 0 && SplitOptions(argv[2..]).1[0] == ""
    ensures r.Ok? && r.value.Load? ==>
              && |argv| >= 2
              && r.value.options + [r.value.source] + r.value.sourceArgs == argv[2..]
              && (forall k :: 0 <= k < |r.value.options| ==> IsOption(r.value.options[k]))
              && r.value.source != "" && !IsOption(r.value.source)
              && Registry.Lookup(reg, r.value.source) == Ok(r.value.sourceClass)
    ensures r.Ok? <==>
              |argv| >= 2 && |SplitOptions(argv[2..]).1| > 0
              && (SplitOptions(argv[2..]).1[0] == "" || SplitOptions(argv[2..]).1[0] in reg.entries)
    ensures |argv| >= 2 && |SplitOptions(argv[2..]).1| > 0 && SplitOptions(argv[2..]).1[0] !in reg.entries
            && SplitOptions(argv[2..]).1[0] != "" ==>
              r == Err(KeyError(SplitOptions(argv[2..]).1[0]))
  {
    if |argv| < 2 then Err(IndexError("list index out of range"))
    else
      var (options, rest) := SplitOptions(argv[2..]);
      NothingLeftIffAllOptions(argv, 2);
      if |rest| == 0 then Err(IndexError("pop from empty list"))
      else
        var source := rest[0];
        if source == "" then Ok(Help)
        else
          var cls :- Registry.Lookup(reg, source);
          assert options + [source] + rest[1..] == argv[2..];
          Ok(Load(options, source, rest[1..], cls))
  }

  /** The two taps `handle` works with. */
  datatype Role = Source | Destination

  /** The calls `handle` makes on the taps, in order. `forSource` is whether `for_datatap` is the
      source tap. */
  datatype Event =
    | Open(role: Role, mode: string, forSource: bool)
    | DetectOriginator
    | Store
    | Close(role: Role)

  /** The calls made, and the destination class used (or the exception that ended `handle`). */
  datatype Trace = Trace(events: seq<Event>, destination: Result<Registry.ClassName>)

  /** Replays `events` against the stack of open taps: a tap is opened at most once at a time,
      closes happen in reverse order of opens, detection needs an open source and a store needs
      both taps open. The result is the stack of taps left open, or None on a violation. */
  function Replay(events: seq<Event>, open: seq<Role>): Option<seq<Role>>
    decreases |events|
  {
    if |events| == 0 then Some(open)
    else
      match events[0]
      case Open(role, _, _) =>
        if role in open then None else Replay(events[1..], open + [role])
      case Close(role) =>
        if |open| > 0 && open[|open| - 1] == role then Replay(events[1..], open[..|open| - 1]) else None
      case DetectOriginator =>
        if Source in open then Replay(events[1..], open) else None
      case Store =>
        if Source in open && Destination in open then Replay(events[1..], open) else None
  }

  /** Every tap opened is closed again, in properly nested order. */
  predicate WellNested(events: seq<Event>) {
    Replay(events, []) == Some([])
  }

  /** The position of each call in `handle`'s sequence: the source opens, the originator may be
      detected, the destination opens, the store runs, and the two taps close, innermost first. */
  function Stage(e: Event): nat
  {
    match e
    case Open(role, _, _) => if role == Source then 0 else 2
    case DetectOriginator => 1
    case Store => 3
    case Close(role) => if role == Destination then 4 else 5
  }

  /** Each call comes at a later stage than every call before it, so no stage repeats. */
  predicate InCallOrder(events: seq<Event>) {
    forall i, j :: 0 <= i < j < |events| ==> Stage(events[i]) < Stage(events[j])
  }

  /** Stages rising from each call to the next rise across the whole sequence. */
  lemma {:induction false} StagesRise(events: seq<Event>)
    requires forall k :: 0 <= k < |events| - 1 ==> Stage(events[k]) < Stage(events[k + 1])
    ensures InCallOrder(events)
    decreases |events|
  {
    if |events| > 1 {
      StagesRise(events[1..]);
      forall i, j | 0 <= i < j < |events|
        ensures Stage(events[i]) < Stage(events[j])
      {
        if i > 0 {
          assert events[i] == events[1..][i - 1] && events[j] == events[1..][j - 1];
        } else if j > 1 {
          assert events[1] == events[1..][0] && events[j] == events[1..][j - 1];
        }
      }
    }
  }

  /** `handle`: `explicit` is the `destination_tap` option when given, `detected` what the
      source's `detect_originating_datatap()` yields (a class, or the exception it raises). */
  function Handle(explicit: Option<Registry.ClassName>, detected: Result<Registry.ClassName>): (t: Trace)
    ensures t.destination.Ok? <==> explicit.Some? || detected.Ok?
    ensures t.destination.Ok? ==>
              t.destination.value == (if explicit.Some? then explicit.value else detected.value)
    ensures |t.events| > 0
    ensures t.events[0] == Open(Source, "r", false)
    ensures t.destination.Err? ==> t.events[|t.events| - 1] == DetectOriginator
    ensures t.destination.Ok? ==>
              && WellNested(t.events)
              && Open(Destination, "w", true) in t.events
              && Store in t.events
              && Close(Destination) in t.events
              && t.events[|t.events| - 1] == Close(Source)
    ensures t.destination.Err? ==> Replay(t.events, []) == Some([Source])
    ensures DetectOriginator in t.events <==> explicit.None?
    ensures InCallOrder(t.events)
  {
    var start := [Open(Source, "r", false)];
    if explicit.None? && detected.Err? then
      var events := start + [DetectOriginator];
      assert Replay(events[2..], [Source]) == Some([Source]);
      assert Replay(events[1..], [Source]) == Some([Source]);
      assert events[1..] == [DetectOriginator];
      assert [] + [Source] == [Source];
      assert Replay(events, []) == Some([Source]);
      StagesRise(events);
      Trace(events, Err(detected.error))
    else
      var chosen := if explicit.Some? then explicit.value else detected.value;
      var detection := if explicit.None? then [DetectOriginator] else [];
      var events := start + detection + [Open(Destination, "w", true), Store, Close(Destination), Close(Source)];
      ReplayCopy(detection);
      CopyOrder(detection);
      Trace(events, Ok(chosen))
  }

  /** The calls of a successful `handle` come in call order, each stage at most once, with the
      detection present exactly when asked for. */
  lemma CopyOrder(detection: seq<Event>)
    requires detection == [] || detection == [DetectOriginator]
    ensures var events := [Open(Source, "r", false)] + detection
                          + [Open(Destination, "w", true), Store, Close(Destination), Close(Source)];
            && InCallOrder(events)
            && (DetectOriginator in events <==> detection != [])
            && events[0] == Open(Source, "r", false)
            && events[|events| - 1] == Close(Source)
            && Open(Destination, "w", true) in events && Store in events && Close(Destination) in events
  {
    var events := [Open(Source, "r", false)] + detection
                  + [Open(Destination, "w", true), Store, Close(Destination), Close(Source)];
    if detection == [] {
      assert events == [Open(Source, "r", false), Open(Destination, "w", true), Store,
                        Close(Destination), Close(Source)];
    } else {
      assert events == [Open(Source, "r", false), DetectOriginator, Open(Destination, "w", true), Store,
                        Close(Destination), Close(Source)];
    }
    StagesRise(events);
  }

  /** The copy phase nests the destination's lifetime inside the source's. */
  lemma ReplayCopy(detection: seq<Event>)
    requires detection == [] || detection == [DetectOriginator]
    ensures Replay([Open(Source, "r", false)] + detection
                   + [Open(Destination, "w", true), Store, Close(Destination), Close(Source)], []) == Some([])
  {
    var tail := [Open(Destination, "w", true), Store, Close(Destination), Close(Source)];
    var both := [Source, Destination];
    assert Replay(tail[3..], [Source]) == Some([]);
    assert both[..1] == [Source];
    assert Replay(tail[2..], both) == Some([]);
    assert Replay(tail[1..], both) == Some([]);
    assert [Source] + [Destination] == both;
    assert Replay(tail, [Source]) == Some([]);
    var events := [Open(Source, "r", false)] + detection + tail;
    assert events[1..] == detection + tail;
    if detection != [] {
      assert (detection + tail)[1..] == tail;
    } else {
      assert detection + tail == tail;
    }
    assert [] + [Source] == [Source];
  }
}
