/** The `datatap` management command (`datatap/management/commands/datatap.py`): argv is split into
    leading options and "--"-separated tap segments, and one tap is loaded per segment, left to
    right, each fed by the tap before it; the right-most tap is loaded for writing and committed. */
module ChainCommand {
  import opened Errors
  import opened ArgvSplit
  import Registry

  /** The token that ends one tap segment. */
  const Separator: string := "--"

  /** The segment-collecting loop: `current` is the segment being built. A separator closes the
      current segment even when it is empty; at the end only a non-empty segment is kept. */
  function Scan(tokens: seq<string>, current: seq<string>): (parts: seq<seq<string>>)
    requires Separator !in current
    ensures forall i :: 0 <= i < |parts| ==> Separator !in parts[i]
    ensures |parts| == 0 <==> |tokens| == 0 && |current| == 0
    decreases |tokens|
  {
    if |tokens| == 0 then
      if |current| > 0 then [current] else []
    else if tokens[0] == Separator then
      [current] + Scan(tokens[1..], [])
    else
      Scan(tokens[1..], current + [tokens[0]])
  }

  /** The tap segments of the tokens that follow the options. */
  function SplitSegments(tokens: seq<string>): (parts: seq<seq<string>>)
    ensures forall i :: 0 <= i < |parts| ==> Separator !in parts[i]
    ensures |parts| == 0 <==> |tokens| == 0
  {
    Scan(tokens, [])
  }

  /** Segments glued back together with one separator between neighbours. */
  function Join(parts: seq<seq<string>>): seq<string>
  {
    if |parts| == 0 then []
    else if |parts| == 1 then parts[0]
    else parts[0] + [Separator] + Join(parts[1..])
  }

  /** `tokens` without its final token when that token is a separator. */
  function DropTrailingSeparator(tokens: seq<string>): seq<string>
  {
    if |tokens| > 0 && tokens[|tokens| - 1] == Separator then tokens[..|tokens| - 1] else tokens
  }

  /** Segments each followed by a separator, as a user would type them. */
  function Terminated(segments: seq<seq<string>>): seq<string>
  {
    if |segments| == 0 then [] else segments[0] + [Separator] + Terminated(segments[1..])
  }

  /** Dropping a trailing separator only looks at the last token. */
  lemma DropTrailingAfterPrefix(prefix: seq<string>, tokens: seq<string>)
    requires |tokens| > 0
    ensures DropTrailingSeparator(prefix + tokens) == prefix + DropTrailingSeparator(tokens)
  {
    var all := prefix + tokens;
    assert all[|all| - 1] == tokens[|tokens| - 1];
    if tokens[|tokens| - 1] == Separator {
      assert all[..|all| - 1] == prefix + tokens[..|tokens| - 1];
    }
  }

  lemma JoinCons(first: seq<string>, rest: seq<seq<string>>)
    requires |rest| > 0
    ensures Join([first] + rest) == first + [Separator] + Join(rest)
  {
    assert ([first] + rest)[1..] == rest;
  }

  lemma {:induction false} JoinScan(tokens: seq<string>, current: seq<string>)
    requires Separator !in current
    ensures Join(Scan(tokens, current)) == DropTrailingSeparator(current + tokens)
    decreases |tokens|
  {
    if |tokens| == 0 {
      assert current + tokens == current;
      if |current| > 0 {
        assert current[|current| - 1] in current;
      }
    } else if tokens[0] == Separator {
      var t := tokens[1..];
      assert current + tokens == current + [Separator] + t;
      if |t| == 0 {
        assert Scan(tokens, current) == [current];
        assert (current + [Separator])[..|current|] == current;
      } else {
        JoinScan(t, []);
        assert [] + t == t;
        JoinCons(current, Scan(t, []));
        DropTrailingAfterPrefix(current + [Separator], t);
      }
    } else {
      assert Separator !in current + [tokens[0]];
      JoinScan(tokens[1..], current + [tokens[0]]);
      assert current + [tokens[0]] + tokens[1..] == current + tokens;
    }
  }

  /** Joining the segments with "--" rebuilds the tokens, less at most one trailing "--". */
  lemma JoinSplitSegments(tokens: seq<string>)
    ensures Join(SplitSegments(tokens)) == DropTrailingSeparator(tokens)
  {
    JoinScan(tokens, []);
    assert [] + tokens == tokens;
  }

  lemma {:induction false} ScanTail(tail: seq<string>, current: seq<string>)
    requires Separator !in current && Separator !in tail
    ensures Scan(tail, current) == if |current + tail| > 0 then [current + tail] else []
    decreases |tail|
  {
    if |tail| > 0 {
      assert tail[0] in tail;
      assert forall x :: x in tail[1..] ==> x in tail;
      ScanTail(tail[1..], current + [tail[0]]);
      assert current + [tail[0]] + tail[1..] == current + tail;
    } else {
      assert current + tail == current;
    }
  }

  lemma {:induction false} ScanSegment(segment: seq<string>, rest: seq<string>, current: seq<string>)
    requires Separator !in current && Separator !in segment
    ensures Scan(segment + [Separator] + rest, current) == [current + segment] + Scan(rest, [])
    decreases |segment|
  {
    var tokens := segment + [Separator] + rest;
    if |segment| == 0 {
      assert tokens == [Separator] + rest;
      assert tokens[1..] == rest;
      assert current + segment == current;
    } else {
      assert segment[0] in segment;
      assert forall x :: x in segment[1..] ==> x in segment;
      assert tokens[0] == segment[0];
      assert tokens[1..] == segment[1..] + [Separator] + rest;
      ScanSegment(segment[1..], rest, current + [segment[0]]);
      assert current + [segment[0]] + segment[1..] == current + segment;
    }
  }

  /** The inverse direction: typing separator-free segments each followed by "--", then an
      optional separator-free tail, splits back into exactly those segments (empty ones
      included), plus the tail when it is non-empty. */
  lemma {:induction false} SplitTerminated(segments: seq<seq<string>>, tail: seq<string>)
    requires forall i :: 0 <= i < |segments| ==> Separator !in segments[i]
    requires Separator !in tail
    ensures SplitSegments(Terminated(segments) + tail) == segments + (if |tail| > 0 then [tail] else [])
    decreases |segments|
  {
    if |segments| == 0 {
      assert Terminated(segments) + tail == tail;
      ScanTail(tail, []);
      assert [] + tail == tail;
    } else {
      var rest := Terminated(segments[1..]) + tail;
      assert Terminated(segments) + tail == segments[0] + [Separator] + rest;
      ScanSegment(segments[0], rest, []);
      assert [] + segments[0] == segments[0];
      SplitTerminated(segments[1..], tail);
      assert segments == [segments[0]] + segments[1..];
    }
  }

  /** `load_datatap(name, arglist, previous=..., for_write=...)` as issued by the command:
      `previous` is the index of the tap loaded just before, `tapClass` what the registry
      returned for `name`. */
  datatype LoadRequest = LoadRequest(
    tapClass: Registry.ClassName,
    name: string,
    args: seq<string>,
    previous: Option<nat>,
    forWrite: bool)

  /** A segment can be loaded when it has a name to pop and that name is registered. */
  predicate Loadable(reg: Registry.Registry, part: seq<string>) {
    |part| > 0 && part[0] in reg.entries
  }

  /** The exception loading a segment raises: popping from an empty segment, or the lookup. */
  function LoadFailure(reg: Registry.Registry, part: seq<string>): PyError
  {
    if |part| == 0 then IndexError("pop from empty list") else KeyError(part[0])
  }

  /** `req` is the load request issued for segment `k` of `parts`. */
  predicate Issued(reg: Registry.Registry, parts: seq<seq<string>>, k: nat, req: LoadRequest) {
    && k < |parts|
    && |parts[k]| > 0
    && req.name == parts[k][0]
    && req.args == parts[k][1..]
    && req.name in reg.entries
    && req.tapClass == reg.entries[req.name]
    && req.previous == (if k == 0 then None else Some(k - 1))
    && req.forWrite == (k == |parts| - 1)
  }

  /** The requests the loading loop issues from segment `i` on, when every segment loads. */
  function Requests(reg: Registry.Registry, parts: seq<seq<string>>, i: nat): (reqs: seq<LoadRequest>)
    requires i <= |parts|
    requires forall k :: i <= k < |parts| ==> Loadable(reg, parts[k])
    ensures |reqs| == |parts| - i
    ensures forall k :: 0 <= k < |reqs| ==> Issued(reg, parts, i + k, reqs[k])
    decreases |parts| - i
  {
    if i == |parts| then []
    else
      assert Loadable(reg, parts[i]);
      var req := LoadRequest(reg.entries[parts[i][0]], parts[i][0], parts[i][1..],
                             if i == 0 then None else Some(i - 1), i == |parts| - 1);
      var rest := Requests(reg, parts, i + 1);
      assert forall k :: 1 <= k < |rest| + 1 ==> ([req] + rest)[k] == rest[k - 1];
      [req] + rest
  }

  /** The first segment from `i` on that cannot be loaded. */
  function FirstUnloadable(reg: Registry.Registry, parts: seq<seq<string>>, i: nat): (k: nat)
    requires i <= |parts|
    requires exists k :: i <= k < |parts| && !Loadable(reg, parts[k])
    ensures i <= k < |parts| && !Loadable(reg, parts[k])
    ensures forall j :: i <= j < k ==> Loadable(reg, parts[j])
    decreases |parts| - i
  {
    if !Loadable(reg, parts[i]) then i else FirstUnloadable(reg, parts, i + 1)
  }

  /** The loading loop from segment `i` on: segments load in order, and the first one that
      cannot be loaded ends the loop with its exception. */
  function BuildFrom(reg: Registry.Registry, parts: seq<seq<string>>, i: nat): (r: Result<seq<LoadRequest>>)
    requires i <= |parts|
    ensures r.Ok? <==> forall k :: i <= k < |parts| ==> Loadable(reg, parts[k])
    ensures r.Ok? ==> |r.value| == |parts| - i
    ensures r.Ok? ==> forall k :: 0 <= k < |r.value| ==> Issued(reg, parts, i + k, r.value[k])
    ensures r.Err? ==> (exists k :: i <= k < |parts| && !Loadable(reg, parts[k]))
                         && r.error == LoadFailure(reg, parts[FirstUnloadable(reg, parts, i)])
  {
    if forall k :: i <= k < |parts| ==> Loadable(reg, parts[k]) then Ok(Requests(reg, parts, i))
    else Err(LoadFailure(reg, parts[FirstUnloadable(reg, parts, i)]))
  }

  /** What a run ends in: the help text, or an executed chain whose tap at `committed` gets
      `commit()` from `handle`. */
  datatype Outcome =
    | Help
    | Execute(options: seq<string>, chain: seq<LoadRequest>, committed: nat)

  /** The segments actually loaded: a lone source segment gets a JSON tap writing to a Stream. */
  function WithDefaultDestination(parts: seq<seq<string>>): (full: seq<seq<string>>)
    requires |parts| > 0
    ensures |full| >= 2 && |full| >= |parts|
    ensures full[..|parts|] == parts
    ensures |parts| == 1 ==> full == parts + [["JSON"], ["Stream"]]
    ensures |parts| > 1 ==> full == parts
  {
    if |parts| == 1 then parts + [["JSON"], ["Stream"]] else parts
  }

  /** `run_from_argv` followed by `handle`. `argv[0]` and `argv[1]` (program and subcommand) are
      needed to build the parser; everything after them is the command line proper. */
  function RunFromArgv(reg: Registry.Registry, argv: seq<string>): (r: Result<Outcome>)
    ensures |argv| < 2 ==> r.Err?
    ensures r == Ok(Help) <==> |argv| >= 2 && forall k :: 2 <= k < |argv| ==> IsOption(argv[k])
    ensures r.Ok? && r.value.Execute? ==>
              && |argv| >= 2
              && r.value.options == SplitOptions(argv[2..]).0
              && |r.value.chain| >= 2
              && r.value.committed < |r.value.chain|
              && (forall k :: 0 <= k < |r.value.chain| ==> (r.value.chain[k].forWrite <==> k == r.value.committed))
    ensures |argv| >= 2 && |SplitSegments(SplitOptions(argv[2..]).1)| > 0 ==>
              var full := WithDefaultDestination(SplitSegments(SplitOptions(argv[2..]).1));
              && (r.Ok? <==> forall k :: 0 <= k < |full| ==> Loadable(reg, full[k]))
              && (r.Ok? ==> r.value == Execute(SplitOptions(argv[2..]).0, BuildFrom(reg, full, 0).value, |full| - 1))
              && (r.Err? ==> r.error == LoadFailure(reg, full[FirstUnloadable(reg, full, 0)]))
  {
    if |argv| < 2 then Err(IndexError("list index out of range"))
    else
      var (options, rest) := SplitOptions(argv[2..]);
      var parts := SplitSegments(rest);
      NothingLeftIffAllOptions(argv, 2);
      if |parts| == 0 then
        Ok(Help)
      else
        var full := WithDefaultDestination(parts);
        var chain :- BuildFrom(reg, full, 0);
        Ok(Execute(options, chain, |chain| - 1))
  }

  /** A command line naming only a source tap is completed with a JSON tap writing to a Stream tap:
      three taps, each fed by the one before, and only the Stream tap is loaded for writing. */
  lemma SourceOnlyGetsJsonAndStream(reg: Registry.Registry, argv: seq<string>)
    requires |argv| >= 2
    requires var rest := SplitOptions(argv[2..]).1;
             |rest| > 0 && Separator !in rest && rest[0] in reg.entries
    requires "JSON" in reg.entries && "Stream" in reg.entries
    ensures var rest := SplitOptions(argv[2..]).1;
            var r := RunFromArgv(reg, argv);
            && r.Ok? && r.value.Execute?
            && |r.value.chain| == 3
            && r.value.chain[0].name == rest[0] && r.value.chain[0].args == rest[1..]
            && r.value.chain[1].name == "JSON" && r.value.chain[2].name == "Stream"
            && r.value.chain[0].previous == None
            && r.value.chain[1].previous == Some(0) && r.value.chain[2].previous == Some(1)
            && r.value.committed == 2
  {
    var rest := SplitOptions(argv[2..]).1;
    ScanTail(rest, []);
    assert [] + rest == rest;
    var full := [rest, ["JSON"], ["Stream"]];
    assert WithDefaultDestination(SplitSegments(rest)) == full;
    var b := BuildFrom(reg, full, 0);
    assert forall k :: 0 <= k < |full| ==> Loadable(reg, full[k]);
    assert Issued(reg, full, 0, b.value[0]);
    assert Issued(reg, full, 1, b.value[1]);
    assert Issued(reg, full, 2, b.value[2]);
  }
}
