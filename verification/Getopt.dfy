/** Short-option scanning with argument permutation (getopt.c).

    `Scanner` holds the file's static variables; `Exchange` is the in-place block rotation and `Getopt`
    one call of pj_getopt in PERMUTE mode.  What a whole scan must produce is said on the original
    argument list alone: `Split` sorts it into options and other arguments, `Outcomes` lists what the
    calls return. */
module Getopt {
  import opened Wrappers

  // ----- rotation -----

  // The segment [first, last) moved behind the segment [last, top).
  function Rotated<T>(s: seq<T>, first: nat, last: nat, top: nat): seq<T>
    requires first <= last <= top <= |s|
  {
    s[..first] + s[last..top] + s[first..last] + s[top..]
  }

  // The same move by positions: where the element that ends up at position k comes from.
  function Source(first: nat, last: nat, top: nat, k: nat): (i: nat)
    requires first <= last <= top
    ensures k < first || top <= k ==> i == k
    ensures first <= k < top ==> first <= i < top
  {
    if first <= k < first + (top - last) then last + (k - first)
    else if first + (top - last) <= k < top then k - (top - last)
    else k
  }

  // Positions [low, low + len) and [high, high + len) trade places.
  function SwapSource(low: nat, high: nat, len: nat, k: nat): nat
    requires low + len <= high
  {
    if low <= k < low + len then k + (high - low)
    else if high <= k < high + len then k - (high - low)
    else k
  }

  ghost predicate SwappedTo<T>(s: seq<T>, r: seq<T>, low: nat, high: nat, len: nat)
    requires low + len <= high && high + len <= |s|
  {
    |r| == |s| && forall k :: 0 <= k < |s| ==> r[k] == s[SwapSource(low, high, len, k)]
  }

  // Rotating what is left of `s` gives `goal`.
  ghost predicate RotatesTo<T>(s: seq<T>, goal: seq<T>, bottom: nat, middle: nat, top: nat)
    requires bottom <= middle <= top <= |s|
  {
    |goal| == |s| && forall k :: 0 <= k < |s| ==> goal[k] == s[Source(bottom, middle, top, k)]
  }

  // Swapping the shorter segment into its final place leaves a smaller rotation to do.
  lemma SwapBottom<T>(s: seq<T>, r: seq<T>, goal: seq<T>, bottom: nat, middle: nat, top: nat, top': nat)
    requires bottom <= middle <= top' <= top <= |s| && top - top' == middle - bottom
    requires SwappedTo(s, r, bottom, top', middle - bottom)
    requires RotatesTo(s, goal, bottom, middle, top)
    ensures RotatesTo(r, goal, bottom, middle, top')
  {
  }

  lemma SwapTop<T>(s: seq<T>, r: seq<T>, goal: seq<T>, bottom: nat, middle: nat, top: nat, bottom': nat)
    requires bottom <= bottom' <= middle <= top <= |s| && bottom' - bottom == top - middle
    requires SwappedTo(s, r, bottom, middle, top - middle)
    requires RotatesTo(s, goal, bottom, middle, top)
    ensures RotatesTo(r, goal, bottom', middle, top)
  {
  }

  lemma NothingLeft<T>(s: seq<T>, goal: seq<T>, bottom: nat, middle: nat, top: nat)
    requires bottom <= middle <= top <= |s| && (middle == top || bottom == middle)
    requires RotatesTo(s, goal, bottom, middle, top)
    ensures goal == s
  {
  }

  lemma RotationRotates<T>(s: seq<T>, first: nat, last: nat, top: nat)
    requires first <= last <= top <= |s|
    ensures RotatesTo(s, Rotated(s, first, last, top), first, last, top)
  {
  }

  method SwapSegments<T>(argv: array<T>, low: nat, high: nat, len: nat)
    requires low + len <= high && high + len <= argv.Length
    modifies argv
    ensures SwappedTo(old(argv[..]), argv[..], low, high, len)
  {
    for i := 0 to len
      invariant forall k :: low <= k < low + i ==> argv[k] == old(argv[k + (high - low)])
      invariant forall k :: high <= k < high + i ==> argv[k] == old(argv[k - (high - low)])
      invariant forall k :: 0 <= k < argv.Length && !(low <= k < low + i) && !(high <= k < high + i) ==> argv[k] == old(argv[k])
    {
      argv[low + i], argv[high + i] := argv[high + i], argv[low + i];
    }
  }

  method SwapBottomIntoPlace<T>(argv: array<T>, bottom: nat, middle: nat, top: nat, ghost goal: seq<T>) returns (top': nat)
    requires bottom < middle < top <= argv.Length && middle - bottom < top - middle
    requires RotatesTo(argv[..], goal, bottom, middle, top)
    modifies argv
    ensures middle <= top' < top && RotatesTo(argv[..], goal, bottom, middle, top')
  {
    ghost var before := argv[..];
    top' := top - (middle - bottom);
    SwapSegments(argv, bottom, top', middle - bottom);
    SwapBottom(before, argv[..], goal, bottom, middle, top, top');
  }

  method SwapTopIntoPlace<T>(argv: array<T>, bottom: nat, middle: nat, top: nat, ghost goal: seq<T>) returns (bottom': nat)
    requires bottom < middle < top <= argv.Length && top - middle <= middle - bottom
    requires RotatesTo(argv[..], goal, bottom, middle, top)
    modifies argv
    ensures bottom < bottom' <= middle && RotatesTo(argv[..], goal, bottom', middle, top)
  {
    ghost var before := argv[..];
    bottom' := bottom + (top - middle);
    SwapSegments(argv, bottom, middle, top - middle);
    SwapTop(before, argv[..], goal, bottom, middle, top, bottom');
  }

  method Rotate<T>(argv: array<T>, first: nat, last: nat, optind: nat, ghost goal: seq<T>)
    requires first <= last <= optind <= argv.Length
    requires RotatesTo(argv[..], goal, first, last, optind)
    modifies argv
    ensures argv[..] == goal
  {
    var bottom: nat, middle: nat, top: nat := first, last, optind;
    while middle < top && bottom < middle
      invariant bottom <= middle <= top <= argv.Length
      invariant RotatesTo(argv[..], goal, bottom, middle, top)
      decreases top - bottom
    {
      // Exchange the shorter segment with the far end of the longer segment.
      if middle - bottom < top - middle {
        top := SwapBottomIntoPlace(argv, bottom, middle, top, goal);
      } else {
        bottom := SwapTopIntoPlace(argv, bottom, middle, top, goal);
      }
    }
    NothingLeft(argv[..], goal, bottom, middle, top);
  }

  // ----- what the option string says -----

  datatype ArgKind = Unknown | NoArgument | RequiredArgument | OptionalArgument

  function IndexOf(s: string, c: char): (i: nat)
    ensures i <= |s| && (i < |s| ==> s[i] == c)
    ensures forall k :: 0 <= k < i ==> s[k] != c
  {
    if s == "" || s[0] == c then 0 else 1 + IndexOf(s[1..], c)
  }

  function KindOf(optstring: string, c: char): ArgKind {
    var i := IndexOf(optstring, c);
    if i == |optstring| || c == ':' then Unknown
    else if i + 1 < |optstring| && optstring[i + 1] == ':' then
      if i + 2 < |optstring| && optstring[i + 2] == ':' then OptionalArgument else RequiredArgument
    else NoArgument
  }

  // Plain short options in PERMUTE order: no ordering prefix, and no `W;` long-option escape.
  predicate Permuting(optstring: string) {
    && (optstring != "" ==> optstring[0] != '-' && optstring[0] != '+')
    && var i := IndexOf(optstring, 'W'); !(i + 1 < |optstring| && optstring[i + 1] == ';')
  }

  // ----- what a scan means, on the original arguments -----

  predicate IsNonOption(arg: string) {
    |arg| < 2 || arg[0] != '-'
  }

  // Does the option element whose remaining characters are `rest` want the element after it?
  predicate WantsNext(optstring: string, rest: string) {
    rest != "" &&
    match KindOf(optstring, rest[0])
    case RequiredArgument => |rest| == 1
    case OptionalArgument => false
    case _ => WantsNext(optstring, rest[1..])
  }

  // The options with their arguments, and the other arguments, each in original order.
  function Split(optstring: string, args: seq<string>): (seq<string>, seq<string>) {
    if args == [] then ([], [])
    else if args[0] == "--" then ([args[0]], args[1..])
    else if IsNonOption(args[0]) then
      var (opts, rest) := Split(optstring, args[1..]);
      (opts, [args[0]] + rest)
    else
      var n := if WantsNext(optstring, args[0][1..]) && |args| > 1 then 2 else 1;
      var (opts, rest) := Split(optstring, args[n..]);
      (args[..n] + opts, rest)
  }

  // One call's result: the option found with its argument, or the complaint about an option character.
  datatype Outcome = Found(c: char, arg: Option<string>) | Complaint(c: char, optopt: char)

  function MissingCode(optstring: string): char {
    if optstring != "" && optstring[0] == ':' then ':' else '?'
  }

  // `next` is what is left of the option element args[0] being read, empty between elements.
  function Outcomes(optstring: string, next: string, args: seq<string>): seq<Outcome>
    requires next != "" ==> args != []
    decreases |args|, if next != "" || args == [] then |next| else |args[0]| + 1
  {
    if next == "" then
      if args == [] || args[0] == "--" then []
      else if IsNonOption(args[0]) then Outcomes(optstring, "", args[1..])
      else Outcomes(optstring, args[0][1..], args)
    else
      var c, rest := next[0], next[1..];
      match KindOf(optstring, c)
      case Unknown => [Complaint('?', c)] + Outcomes(optstring, rest, if rest == "" then args[1..] else args)
      case NoArgument => [Found(c, None)] + Outcomes(optstring, rest, if rest == "" then args[1..] else args)
      case OptionalArgument =>
        [Found(c, if rest == "" then None else Some(rest))] + Outcomes(optstring, "", args[1..])
      case RequiredArgument =>
        if rest != "" then [Found(c, Some(rest))] + Outcomes(optstring, "", args[1..])
        else if |args| == 1 then [Complaint(MissingCode(optstring), c)]
        else [Found(c, Some(args[1]))] + Outcomes(optstring, "", args[2..])
  }

  // Sorting loses and invents nothing.
  lemma {:induction false} SplitIsPermutation(optstring: string, args: seq<string>)
    ensures var (opts, rest) := Split(optstring, args);
            |opts| + |rest| == |args| && multiset(opts) + multiset(rest) == multiset(args)
  {
    if args == [] {
    } else if args[0] == "--" {
      assert args == [args[0]] + args[1..];
    } else if IsNonOption(args[0]) {
      SplitIsPermutation(optstring, args[1..]);
      assert args == [args[0]] + args[1..];
    } else {
      var n := if WantsNext(optstring, args[0][1..]) && |args| > 1 then 2 else 1;
      SplitIsPermutation(optstring, args[n..]);
      assert args == args[..n] + args[n..];
    }
  }

  // ----- the scan in progress -----

  // Where a scan stands: [first, last) are non-options already skipped, [1, first) and [last, ind) the
  // options already read, and args[ind..] is still to come.
  function Arranged(optstring: string, args: seq<string>, first: nat, last: nat, ind: nat): (seq<string>, seq<string>)
    requires 1 <= first <= last <= ind <= |args|
  {
    var (opts, rest) := Split(optstring, args[ind..]);
    (args[1..first] + args[last..ind] + opts, args[first..last] + rest)
  }

  lemma ExchangeKeepsArranged(optstring: string, args: seq<string>, first: nat, last: nat, ind: nat, first': nat)
    requires 1 <= first <= last <= ind <= |args| && first' == first + (ind - last)
    ensures Arranged(optstring, Rotated(args, first, last, ind), first', ind, ind)
            == Arranged(optstring, args, first, last, ind)
  {
    var r := Rotated(args, first, last, ind);
    assert r[ind..] == args[ind..];
    assert r[1..first'] == args[1..first] + args[last..ind];
    assert r[first'..ind] == args[first..last];
    assert r[ind..ind] == [];
    assert Arranged(optstring, r, first', ind, ind).0 == Arranged(optstring, args, first, last, ind).0;
    assert Arranged(optstring, r, first', ind, ind).1 == Arranged(optstring, args, first, last, ind).1;
  }

  lemma NothingSkipped(optstring: string, args: seq<string>, first: nat, ind: nat)
    requires 1 <= first <= ind <= |args|
    ensures Arranged(optstring, args, first, first, ind) == Arranged(optstring, args, ind, ind, ind)
  {
    assert args[1..first] + args[first..ind] == args[1..ind] + args[ind..ind];
    assert args[first..first] == args[ind..ind];
    assert Arranged(optstring, args, first, first, ind).0 == Arranged(optstring, args, ind, ind, ind).0;
    assert Arranged(optstring, args, first, first, ind).1 == Arranged(optstring, args, ind, ind, ind).1;
  }

  lemma SkipNonOption(optstring: string, args: seq<string>, first: nat, ind: nat, ind': nat)
    requires 1 <= first <= ind < |args| && IsNonOption(args[ind]) && ind' == ind + 1
    ensures Arranged(optstring, args, first, ind', ind') == Arranged(optstring, args, first, ind, ind)
    ensures Outcomes(optstring, "", args[ind'..]) == Outcomes(optstring, "", args[ind..])
  {
    assert args[ind..][1..] == args[ind'..];
    assert args[first..ind'] == args[first..ind] + [args[ind]];
    assert args[ind..ind] == args[ind'..ind'];
    assert Arranged(optstring, args, first, ind', ind').1 == Arranged(optstring, args, first, ind, ind).1;
  }

  // The option element at `ind`, with its argument if that is the next element.
  function Width(optstring: string, args: seq<string>, ind: nat): nat
    requires ind < |args| && args[ind] != ""
  {
    if WantsNext(optstring, args[ind][1..]) && ind + 1 < |args| then 2 else 1
  }

  lemma PassOption(optstring: string, args: seq<string>, first: nat, last: nat, ind: nat, ind': nat)
    requires 1 <= first <= last <= ind < |args| && !IsNonOption(args[ind]) && args[ind] != "--"
    requires ind' == ind + Width(optstring, args, ind)
    ensures Arranged(optstring, args, first, last, ind') == Arranged(optstring, args, first, last, ind)
  {
    var n := ind' - ind;
    assert args[ind..][n..] == args[ind'..];
    assert args[last..ind'] == args[last..ind] + args[ind..][..n];
    assert Arranged(optstring, args, first, last, ind').0 == Arranged(optstring, args, first, last, ind).0;
  }

  lemma EndOfOptions(optstring: string, args: seq<string>, first: nat, ind: nat)
    requires 1 <= first <= ind < |args| && args[ind] == "--"
    ensures var (opts, rest) := Arranged(optstring, args, first, ind, ind);
            |opts| == first && Rotated(args, first, ind, ind + 1) == args[..1] + opts + rest
  {
    assert args[ind..][1..] == args[ind + 1..];
    assert args[..first] == args[..1] + args[1..first];
  }

  lemma EndOfArguments(optstring: string, args: seq<string>, first: nat)
    requires 1 <= first <= |args|
    ensures var (opts, rest) := Arranged(optstring, args, first, |args|, |args|);
            1 + |opts| == first && args == args[..1] + opts + rest
  {
    assert args == args[..1] + args[1..first] + args[first..];
  }

  class Scanner {
    var optind: nat
    var optarg: Option<string>
    var optopt: char
    var initialized: bool
    var nextchar: string          // "" for NULL as well as for the end of an element
    var firstNonopt: nat
    var lastNonopt: nat

    constructor ()
      ensures optind == 1 && !initialized && nextchar == ""
    {
      optind, optarg, optopt, initialized := 1, None, '?', false;
      nextchar, firstNonopt, lastNonopt := "", 0, 0;
    }

    method Exchange(argv: array<string>)
      requires firstNonopt <= lastNonopt <= optind <= argv.Length
      modifies argv, `firstNonopt, `lastNonopt
      ensures argv[..] == Rotated(old(argv[..]), old(firstNonopt), old(lastNonopt), optind)
      ensures lastNonopt == optind
      ensures firstNonopt == old(firstNonopt) + (optind - old(lastNonopt))
    {
      RotationRotates(argv[..], firstNonopt, lastNonopt, optind);
      Rotate(argv, firstNonopt, lastNonopt, optind, Rotated(argv[..], firstNonopt, lastNonopt, optind));
      firstNonopt := firstNonopt + (optind - lastNonopt);
      lastNonopt := optind;
    }

    ghost predicate Ready(argv: array<string>, optstring: string)
      reads this, argv
    {
      && 1 <= argv.Length
      && (if !initialized then optind <= 1 && nextchar == ""
          else
            && 1 <= firstNonopt <= lastNonopt <= optind <= argv.Length
            && (nextchar != "" ==>
                  && optind < argv.Length && !IsNonOption(argv[optind]) && argv[optind] != "--"
                  && WantsNext(optstring, nextchar) == WantsNext(optstring, argv[optind][1..])))
    }

    // What the finished scan is to leave: the options, and the other arguments.
    ghost function Sorted(argv: array<string>, optstring: string): (seq<string>, seq<string>)
      requires Ready(argv, optstring)
      reads this, argv
    {
      if !initialized then Split(optstring, argv[1..])
      else Arranged(optstring, argv[..], firstNonopt, lastNonopt, optind)
    }

    ghost function ToCome(argv: array<string>, optstring: string): seq<Outcome>
      requires Ready(argv, optstring)
      reads this, argv
    {
      if !initialized then Outcomes(optstring, "", argv[1..])
      else Outcomes(optstring, nextchar, argv[optind..])
    }

    // What the last call reported through its result and through pj_optarg and pj_optopt.
    ghost predicate Reports(r: char, o: Outcome)
      reads this
    {
      match o
      case Found(c, arg) => r == c && optarg == arg
      case Complaint(c, opt) => r == c && optopt == opt && optarg == None
    }

    method Initialize(argv: array<string>, optstring: string)
      requires Ready(argv, optstring)
      modifies this
      ensures initialized && Ready(argv, optstring) && optarg == old(optarg)
      ensures Sorted(argv, optstring) == old(Sorted(argv, optstring))
      ensures ToCome(argv, optstring) == old(ToCome(argv, optstring))
    {
      if optind == 0 || !initialized {
        if optind == 0 { optind := 1; }
        firstNonopt, lastNonopt := optind, optind;
        nextchar := "";
        initialized := true;
        assert argv[..][1..] == argv[1..];
        assert Sorted(argv, optstring).0 == Split(optstring, argv[1..]).0;
        assert Sorted(argv, optstring).1 == Split(optstring, argv[1..]).1;
      }
    }

    // If options have followed skipped non-options, move those non-options behind them.
    method MoveSkipped(argv: array<string>, optstring: string)
      requires initialized && nextchar == "" && Ready(argv, optstring)
      modifies argv, `firstNonopt, `lastNonopt
      ensures 1 <= firstNonopt <= optind && argv[0] == old(argv[0])
      ensures argv[optind..] == old(argv[optind..])
      ensures Arranged(optstring, argv[..], firstNonopt, optind, optind)
              == Arranged(optstring, old(argv[..]), old(firstNonopt), old(lastNonopt), optind)
    {
      if firstNonopt != lastNonopt && lastNonopt != optind {
        ghost var args := argv[..];
        ExchangeKeepsArranged(optstring, args, firstNonopt, lastNonopt, optind, firstNonopt + (optind - lastNonopt));
        Exchange(argv);
        assert argv[..][optind..] == args[optind..];
        assert argv[0] == argv[..][0] == args[0];
      } else if lastNonopt != optind {
        NothingSkipped(optstring, argv[..], firstNonopt, optind);
        firstNonopt := optind;
      }
    }

    method SkipNonOptions(argv: array<string>, optstring: string, ghost args: seq<string>)
      requires 1 <= firstNonopt <= optind <= argv.Length && args == argv[..]
      modifies `optind, `lastNonopt
      ensures old(optind) <= optind == lastNonopt <= argv.Length
      ensures optind < argv.Length ==> !IsNonOption(argv[optind])
      ensures Arranged(optstring, args, firstNonopt, optind, optind)
              == Arranged(optstring, args, firstNonopt, old(optind), old(optind))
      ensures Outcomes(optstring, "", args[optind..]) == Outcomes(optstring, "", args[old(optind)..])
    {
      while optind < argv.Length && IsNonOption(argv[optind])
        invariant old(optind) <= optind <= argv.Length
        invariant Arranged(optstring, args, firstNonopt, optind, optind)
                  == Arranged(optstring, args, firstNonopt, old(optind), old(optind))
        invariant Outcomes(optstring, "", args[optind..]) == Outcomes(optstring, "", args[old(optind)..])
      {
        var next := optind + 1;
        SkipNonOption(optstring, args, firstNonopt, optind, next);
        optind := next;
      }
      lastNonopt := optind;
    }

    // The special element `--` ends the options: it joins them, and all that follows is not an option.
    method EndScan(argv: array<string>, optstring: string)
      requires 1 <= firstNonopt <= lastNonopt == optind < argv.Length && argv[optind] == "--"
      modifies argv, `optind, `firstNonopt, `lastNonopt
      ensures var (opts, rest) := Arranged(optstring, old(argv[..]), old(firstNonopt), old(optind), old(optind));
              argv[..] == [old(argv[0])] + opts + rest && firstNonopt == 1 + |opts|
      ensures firstNonopt <= optind == lastNonopt == argv.Length
    {
      EndOfOptions(optstring, argv[..], firstNonopt, optind);
      assert argv[..][..1] == [argv[0]];
      optind := optind + 1;
      if firstNonopt != lastNonopt && lastNonopt != optind {
        Exchange(argv);
      } else if firstNonopt == lastNonopt {
        assert Rotated(argv[..], firstNonopt, firstNonopt, firstNonopt + 1) == argv[..];
        firstNonopt := optind;
      }
      lastNonopt := argv.Length;
      optind := argv.Length;
    }

    // Advance to the next option element; `done` when there is none.
    method Advance(argv: array<string>, optstring: string) returns (done: bool)
      requires initialized && nextchar == "" && Ready(argv, optstring)
      modifies argv, `optind, `firstNonopt, `lastNonopt, `nextchar
      ensures done <==> old(ToCome(argv, optstring)) == []
      ensures !done ==>
                && Ready(argv, optstring) && nextchar != "" && argv[0] == old(argv[0])
                && Sorted(argv, optstring) == old(Sorted(argv, optstring))
                && ToCome(argv, optstring) == old(ToCome(argv, optstring))
      ensures done ==>
                && argv[..] == [old(argv[0])] + old(Sorted(argv, optstring)).0 + old(Sorted(argv, optstring)).1
                && optind == 1 + |old(Sorted(argv, optstring)).0|
    {
      MoveSkipped(argv, optstring);
      ghost var args := argv[..];
      assert args[optind..] == argv[optind..];
      SkipNonOptions(argv, optstring, args);
      if optind != argv.Length && argv[optind] == "--" {
        EndScan(argv, optstring);
      } else if optind == argv.Length {
        EndOfArguments(optstring, args, firstNonopt);
        assert args[..1] == [argv[0]];
      }
      if optind == argv.Length {
        if firstNonopt != lastNonopt { optind := firstNonopt; }
        return true;
      }
      nextchar := argv[optind][1..];
      assert args[optind..] == argv[optind..];
      return false;
    }

    // Look at and handle the next short option character.
    method TakeChar(argv: array<string>, optstring: string) returns (r: char)
      requires Permuting(optstring) && optarg == None
      requires nextchar != "" && optind < argv.Length
      modifies `optind, `optarg, `optopt, `nextchar
      ensures var todo := Outcomes(optstring, old(nextchar), argv[old(optind)..]);
              && optind <= argv.Length && (nextchar != "" ==> optind < argv.Length)
              && todo != [] && Reports(r, todo[0])
              && Outcomes(optstring, nextchar, argv[optind..]) == todo[1..]
      ensures nextchar != "" ==> optind == old(optind) && WantsNext(optstring, nextchar) == WantsNext(optstring, old(nextchar))
      ensures nextchar == "" ==>
                optind == old(optind) + if WantsNext(optstring, old(nextchar)) && old(optind) + 1 < argv.Length then 2 else 1
    {
      ghost var element, todo := optind, Outcomes(optstring, nextchar, argv[optind..]);
      ghost var wants := WantsNext(optstring, nextchar);
      assert argv[element..][1..] == argv[element + 1..];

      var c := nextchar[0];
      var temp := IndexOf(optstring, c);
      nextchar := nextchar[1..];
      // Increment `optind` when we start to process the element's last character.
      if nextchar == "" { optind := optind + 1; }

      r := c;
      if temp == |optstring| || c == ':' {
        assert KindOf(optstring, c) == Unknown && wants == WantsNext(optstring, nextchar);
        optopt := c;
        r := '?';
        assert todo == [Complaint('?', c)] + Outcomes(optstring, nextchar, argv[optind..]);
      } else if temp + 1 < |optstring| && optstring[temp + 1] == ':' {
        if temp + 2 < |optstring| && optstring[temp + 2] == ':' {
          assert KindOf(optstring, c) == OptionalArgument && !wants;
          r := TakeOptional(argv, optstring, c);
          assert todo == [Found(c, optarg)] + Outcomes(optstring, nextchar, argv[optind..]);
        } else {
          assert KindOf(optstring, c) == RequiredArgument && wants == (nextchar == "");
          assert element + 1 < argv.Length ==> argv[element..][2..] == argv[element + 2..];
          r := TakeRequired(argv, optstring, c);
        }
      } else {
        assert KindOf(optstring, c) == NoArgument && wants == WantsNext(optstring, nextchar);
        assert todo == [Found(c, None)] + Outcomes(optstring, nextchar, argv[optind..]);
      }
    }

    // An option that accepts an argument optionally: the rest of its own element, if any.
    method TakeOptional(argv: array<string>, optstring: string, c: char) returns (r: char)
      requires nextchar != "" ==> optind < argv.Length
      modifies `optind, `optarg, `nextchar
      ensures r == c && nextchar == ""
      ensures optind == old(optind) + (if old(nextchar) == "" then 0 else 1)
      ensures optarg == if old(nextchar) == "" then None else Some(old(nextchar))
    {
      if nextchar != "" {
        optarg := Some(nextchar);
        optind := optind + 1;
      } else {
        optarg := None;
      }
      nextchar := "";
      r := c;
    }

    // An option that requires an argument: the rest of its own element, or else the next element.
    method TakeRequired(argv: array<string>, optstring: string, c: char) returns (r: char)
      requires optind <= argv.Length && optarg == None
      requires nextchar != "" ==> optind < argv.Length
      modifies `optind, `optarg, `optopt, `nextchar
      ensures nextchar == ""
      ensures old(nextchar) != "" ==> r == c && optind == old(optind) + 1 && optarg == Some(old(nextchar))
      ensures old(nextchar) == "" && old(optind) < argv.Length ==>
                r == c && optind == old(optind) + 1 && optarg == Some(argv[old(optind)])
      ensures old(nextchar) == "" && old(optind) == argv.Length ==>
                r == MissingCode(optstring) && optind == old(optind) && optarg == None && optopt == c
    {
      r := c;
      if nextchar != "" {
        optarg := Some(nextchar);
        // If we end this element by taking the rest as an argument, advance to the next one now.
        optind := optind + 1;
      } else if optind == argv.Length {
        optopt := c;
        r := MissingCode(optstring);
      } else {
        optarg := Some(argv[optind]);
        optind := optind + 1;
      }
      nextchar := "";
    }

    // Read the next character of the option element at `optind`.
    method ReadOption(argv: array<string>, optstring: string) returns (r: char)
      requires Permuting(optstring) && initialized && optarg == None
      requires Ready(argv, optstring) && nextchar != ""
      modifies `optind, `optarg, `optopt, `nextchar
      ensures Ready(argv, optstring) && Sorted(argv, optstring) == old(Sorted(argv, optstring))
      ensures old(ToCome(argv, optstring)) != [] && Reports(r, old(ToCome(argv, optstring))[0])
      ensures ToCome(argv, optstring) == old(ToCome(argv, optstring))[1..]
    {
      ghost var args, element := argv[..], optind;
      r := TakeChar(argv, optstring);
      if nextchar == "" {
        assert optind == element + Width(optstring, args, element);
        PassOption(optstring, args, firstNonopt, lastNonopt, element, optind);
      }
    }

    // One call of pj_getopt; None stands for -1.
    method Getopt(argv: array<string>, optstring: string) returns (r: Option<char>)
      requires Permuting(optstring) && Ready(argv, optstring)
      modifies this, argv
      ensures r == None <==> old(ToCome(argv, optstring)) == []
      ensures r.Some? ==>
                && Ready(argv, optstring) && argv[0] == old(argv[0])
                && Sorted(argv, optstring) == old(Sorted(argv, optstring))
                && Reports(r.value, old(ToCome(argv, optstring))[0])
                && ToCome(argv, optstring) == old(ToCome(argv, optstring))[1..]
      ensures r.None? ==>
                && argv[..] == [old(argv[0])] + old(Sorted(argv, optstring)).0 + old(Sorted(argv, optstring)).1
                && optind == 1 + |old(Sorted(argv, optstring)).0|
    {
      optarg := None;
      Initialize(argv, optstring);
      if nextchar == "" {
        var done := Advance(argv, optstring);
        if done { return None; }
      }
      var c := ReadOption(argv, optstring);
      return Some(c);
    }

    // Call pj_getopt until it returns -1.
    method ScanAll(argv: array<string>, optstring: string) returns (codes: seq<char>)
      requires Permuting(optstring) && Ready(argv, optstring)
      modifies this, argv
      ensures var todo := old(ToCome(argv, optstring));
              |codes| == |todo| && forall i :: 0 <= i < |codes| ==> codes[i] == todo[i].c
      ensures argv[..] == [old(argv[0])] + old(Sorted(argv, optstring)).0 + old(Sorted(argv, optstring)).1
      ensures optind == 1 + |old(Sorted(argv, optstring)).0|
      decreases |ToCome(argv, optstring)|
    {
      var r := Getopt(argv, optstring);
      if r.None? { return []; }
      codes := ScanAll(argv, optstring);
      codes := [r.value] + codes;
    }
  }

  // A whole scan.  The calls report exactly the options of the original arguments, in order; argv is
  // left with the options and their arguments first, then the other arguments, each in original
  // order; and optind is the index of the first non-option.
  method ScanArguments(argv: array<string>, optstring: string)
    returns (optind: nat, codes: seq<char>)
    requires Permuting(optstring) && 1 <= argv.Length
    modifies argv
    ensures var (opts, rest) := Split(optstring, old(argv[1..]));
            argv[..] == [old(argv[0])] + opts + rest && optind == 1 + |opts|
    ensures var todo := Outcomes(optstring, "", old(argv[1..]));
            |codes| == |todo| && forall i :: 0 <= i < |codes| ==> codes[i] == todo[i].c
    ensures multiset(argv[..]) == multiset(old(argv[..]))
  {
    SplitIsPermutation(optstring, argv[1..]);
    assert argv[..] == [argv[0]] + argv[1..];
    var scanner := new Scanner();
    codes := scanner.ScanAll(argv, optstring);
    optind := scanner.optind;
  }
}
