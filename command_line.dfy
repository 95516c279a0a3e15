/** The command line of the test runner (tests/catch_main.cc): before the
    arguments reach the test framework, the first occurrence of the runner's
    own flag is taken out of argv, shifting the later arguments (and the null
    terminator) down by one, and argc is decremented. A C argument vector is
    an array of argc + 1 entries whose last one is the null pointer; an entry
    is `Some(text)`, the null pointer `None`. */
module CommandLine {
  import opened Wrappers

  /** The runner's own flag. */
  const WaitFlag: string := "--wait-for-keypress-on-failure"

  /** The first index in [from, argc) that holds the flag, if any. */
  function FirstFlag(args: seq<Option<string>>, argc: nat, from: nat): (r: Option<nat>)
    requires argc <= |args|
    ensures r.Some? ==> from <= r.value < argc && args[r.value] == Some(WaitFlag)
    ensures r.Some? ==> forall k :: from <= k < r.value ==> args[k] != Some(WaitFlag)
    ensures r.None? <==> forall k :: from <= k < argc ==> args[k] != Some(WaitFlag)
    decreases argc - from
  {
    if argc <= from then None
    else if args[from] == Some(WaitFlag) then Some(from)
    else FirstFlag(args, argc, from + 1)
  }

  /** The vector after the entry at `i` is taken out: what came before it,
      what came after it moved down by one, and the last entry (the
      terminator) left where it was, so that the length does not change. */
  function Removed(args: seq<Option<string>>, i: nat): (r: seq<Option<string>>)
    requires i < |args|
    ensures |r| == |args|
    ensures forall k :: 0 <= k < i ==> r[k] == args[k]
    ensures forall k :: i <= k < |args| - 1 ==> r[k] == args[k + 1]
    ensures r[|args| - 1] == args[|args| - 1]
  {
    args[..i] + args[i + 1..] + [args[|args| - 1]]
  }

  /** Entries before `i` kept, entries from `i` on taken from one place
      later, and the last entry kept: that is the vector with `i` removed. */
  lemma ShiftedIsRemoved(before: seq<Option<string>>, after: seq<Option<string>>, i: nat)
    requires i < |before| - 1 && |after| == |before|
    requires forall k :: 0 <= k < i ==> after[k] == before[k]
    requires forall k :: i <= k < |before| - 1 ==> after[k] == before[k + 1]
    requires after[|before| - 1] == before[|before| - 1]
    ensures after == Removed(before, i)
  {
  }

  /** What the runner does to its command line: whether the flag was given,
      the new argc and the new vector. */
  datatype Stripped = Stripped(wait: bool, argc: int, args: seq<Option<string>>)

  /** The specification of the loop: with the flag at index i (the first one
      after the program name), drop it and decrement argc; without it,
      leave everything as it was. */
  function StripWaitFlag(args: seq<Option<string>>, argc: nat): (r: Stripped)
    requires argc < |args|
    ensures r.wait <==> FirstFlag(args, argc, 1).Some?
    ensures r.argc == (if r.wait then argc - 1 else argc)
    ensures |r.args| == |args|
    ensures !r.wait ==> r.args == args
  {
    match FirstFlag(args, argc, 1)
    case None => Stripped(false, argc, args)
    case Some(i) => Stripped(true, argc - 1, Removed(args, i))
  }

  /** main's argument loop, working on argv in place. */
  method StripWaitFlagInPlace(argv: array<Option<string>>, argc: int) returns (newArgc: int, wait: bool)
    requires 0 <= argc && argv.Length == argc + 1
    modifies argv
    ensures Stripped(wait, newArgc, argv[..]) == StripWaitFlag(old(argv[..]), argc)
  {
    wait := false;
    newArgc := argc;
    var i := 1;
    while i < argc
      invariant 1 <= i
      invariant !wait
      invariant newArgc == argc && argv[..] == old(argv[..])
      invariant FirstFlag(argv[..], argc, 1) == FirstFlag(argv[..], argc, i)
    {
      if argv[i] != Some(WaitFlag) {
        i := i + 1;
        continue;
      }
      wait := true;
      ghost var before := argv[..];
      var j := i;
      while j < argc
        invariant i <= j <= argc
        invariant forall k :: 0 <= k < i ==> argv[k] == before[k]
        invariant forall k :: i <= k < j ==> argv[k] == before[k + 1]
        invariant forall k :: j <= k < argv.Length ==> argv[k] == before[k]
      {
        argv[j] := argv[j + 1];
        j := j + 1;
      }
      newArgc := argc - 1;
      ShiftedIsRemoved(before, argv[..], i);
      break;
    }
  }

  /** The flag is reported exactly when some argument after the program name is the flag. */
  lemma WaitIffFlagGiven(args: seq<Option<string>>, argc: nat)
    requires argc < |args|
    ensures StripWaitFlag(args, argc).wait <==> exists i :: 1 <= i < argc && args[i] == Some(WaitFlag)
  {
    if !StripWaitFlag(args, argc).wait {
      assert FirstFlag(args, argc, 1).None?;
    }
  }

  /** Without the flag the command line is handed on untouched. */
  lemma NoFlagNoChange(args: seq<Option<string>>, argc: nat)
    requires argc < |args|
    requires forall i :: 1 <= i < argc ==> args[i] != Some(WaitFlag)
    ensures StripWaitFlag(args, argc) == Stripped(false, argc, args)
  {
    assert FirstFlag(args, argc, 1).None?;
  }

  /** With the flag, the arguments handed on are the original ones with only
      the first flag taken out, in their order; the vector keeps its length
      and stays null-terminated at the new argc. */
  lemma FirstFlagRemoved(args: seq<Option<string>>, argc: nat)
    requires argc < |args| == argc + 1 && args[argc] == None
    requires StripWaitFlag(args, argc).wait
    ensures var i := FirstFlag(args, argc, 1).value;
            var r := StripWaitFlag(args, argc);
            && r.argc == argc - 1
            && |r.args| == |args|
            && r.args[..r.argc] == args[..i] + args[i + 1..argc]
            && r.args[r.argc] == None
  {
    var i := FirstFlag(args, argc, 1).value;
    var r := StripWaitFlag(args, argc);
    assert r.args == args[..i] + args[i + 1..] + [None];
    assert args[i + 1..] == args[i + 1..argc] + [None];
    assert r.args[..r.argc] == args[..i] + args[i + 1..argc];
  }

  /** Exactly one flag disappears: the arguments handed on, with one flag
      added back, are the original arguments as a multiset. */
  lemma OneFlagFewer(args: seq<Option<string>>, argc: nat)
    requires argc < |args| == argc + 1 && args[argc] == None
    requires StripWaitFlag(args, argc).wait
    ensures var r := StripWaitFlag(args, argc);
            multiset(r.args[..r.argc]) + multiset{Some(WaitFlag)} == multiset(args[..argc])
  {
    var i := FirstFlag(args, argc, 1).value;
    FirstFlagRemoved(args, argc);
    assert args[..argc] == args[..i] + [args[i]] + args[i + 1..argc];
  }

  /** A second occurrence of the flag is handed on to the test framework. */
  lemma LaterFlagKept(args: seq<Option<string>>, argc: nat, first: nat, second: nat)
    requires argc < |args| == argc + 1 && args[argc] == None
    requires 1 <= first < second < argc
    requires args[first] == Some(WaitFlag) && args[second] == Some(WaitFlag)
    ensures var r := StripWaitFlag(args, argc);
            exists k :: 1 <= k < r.argc && r.args[k] == Some(WaitFlag)
  {
    var i := FirstFlag(args, argc, 1).value;
    assert i <= first;
    FirstFlagRemoved(args, argc);
    var r := StripWaitFlag(args, argc);
    assert r.args[..r.argc][second - 1] == args[second];
  }

  /** `runner --wait-for-keypress-on-failure -s` reaches the framework as `runner -s`. */
  lemma StripExample()
    ensures StripWaitFlag([Some("runner"), Some(WaitFlag), Some("-s"), None], 3)
         == Stripped(true, 2, [Some("runner"), Some("-s"), None, None])
  {
    var args := [Some("runner"), Some(WaitFlag), Some("-s"), None];
    assert FirstFlag(args, 3, 1) == Some(1);
    assert Removed(args, 1) == [Some("runner"), Some("-s"), None, None];
  }
}
