/** The leading-option scan shared by the `datatap` and `loaddatatap` management commands. */
module ArgvSplit {

  /** `token.startswith('-')`: the empty string is not an option. */
  predicate IsOption(token: string) {
    |token| > 0 && token[0] == '-'
  }

  /** Moves tokens from the front of `args` to the option list while they start with '-'.
      The result is (options, remaining tokens). */
  function SplitOptions(args: seq<string>): (r: (seq<string>, seq<string>))
    ensures r.0 + r.1 == args
    ensures forall i :: 0 <= i < |r.0| ==> IsOption(r.0[i])
    ensures |r.1| > 0 ==> !IsOption(r.1[0])
  {
    if |args| > 0 && IsOption(args[0]) then
      var rest := SplitOptions(args[1..]);
      ([args[0]] + rest.0, rest.1)
    else
      ([], args)
  }

  /** The three properties of `SplitOptions` determine it: any other split of `args` into an
      all-option prefix and a remainder that does not start with an option is the same split. */
  lemma {:induction false} SplitOptionsUnique(args: seq<string>, options: seq<string>, rest: seq<string>)
    requires options + rest == args
    requires forall i :: 0 <= i < |options| ==> IsOption(options[i])
    requires |rest| > 0 ==> !IsOption(rest[0])
    ensures SplitOptions(args) == (options, rest)
  {
    if |options| == 0 {
      assert rest == args;
    } else {
      assert args[0] == options[0];
      assert options[1..] + rest == args[1..];
      SplitOptionsUnique(args[1..], options[1..], rest);
      assert [args[0]] + options[1..] == options;
    }
  }

  /** Nothing is left after the options exactly when every token from `from` on is an option. */
  lemma NothingLeftIffAllOptions(argv: seq<string>, from: nat)
    requires from <= |argv|
    ensures (forall k :: from <= k < |argv| ==> IsOption(argv[k])) <==> |SplitOptions(argv[from..]).1| == 0
  {
    var (options, rest) := SplitOptions(argv[from..]);
    if |rest| > 0 {
      assert argv[from + |options|] == rest[0];
    } else {
      assert options == argv[from..];
      assert forall k :: from <= k < |argv| ==> argv[k] == options[k - from];
    }
  }
}
