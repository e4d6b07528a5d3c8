/** getopt_long of getopt_long.c in its permuting mode: a scan of the argument vector that
    can be resumed, moves the options to the front, and reports them one by one. */
module Getopt {
  import opened Tables
  import opened Rotation

  datatype HasArg = NoArgument | RequiredArgument | OptionalArgument

  datatype LongOption = LongOption(name: string, hasArg: HasArg, flag: bool, val: int)

  /** What the caller of getopt_long passes besides the arguments. */
  datatype Grammar = Grammar(options: string, longs: seq<LongOption>)

  /** The permuting mode, without the long form of -W. */
  predicate Permuting(g: Grammar) {
    && (g.options != "" ==> g.options[0] != '-' && g.options[0] != '+')
    && forall k | 0 <= k < |g.options| - 1 :: !(g.options[k] == 'W' && g.options[k + 1] == ';')
  }

  /** One call's report: the value returned and the option's argument. */
  datatype Event = Event(code: int, arg: Option<string>)

  /** What one option does: its report, the next element, and what is left of this one. */
  datatype Step = Step(event: Event, next: nat, rest: string)

  // ----- what a single option means -----

  /** strchr: where the character is, or the length. */
  function Position(s: string, c: char): (k: nat)
    ensures k <= |s| && (k < |s| ==> s[k] == c) && forall i | 0 <= i < k :: s[i] != c
  {
    if s == "" || s[0] == c then 0 else 1 + Position(s[1..], c)
  }

  datatype Short = Unknown | Plain | WithRequired | WithOptional

  function ShortKind(options: string, c: char): Short {
    var k := Position(options, c);
    if c == ':' || k == |options| then Unknown
    else if k + 1 == |options| || options[k + 1] != ':' then Plain
    else if k + 2 == |options| || options[k + 2] != ':' then WithRequired
    else WithOptional
  }

  const BADCH := '?' as int

  function BadArg(options: string): int { if options != "" && options[0] == ':' then ':' as int else '?' as int }

  /** One letter of element i, where place is what is left of that element. */
  function ShortStep(g: Grammar, a: seq<string>, i: nat, place: string): (r: Step)
    requires i < |a| && place != ""
    ensures i <= r.next <= |a|
    ensures if r.next == i then r.rest == place[1..] != "" else r.rest == ""
  {
    var (c, more) := (place[0], place[1..]);
    var next := if more == "" then i + 1 else i;
    match ShortKind(g.options, c)
    case Unknown => Step(Event(BADCH, None), next, more)
    case Plain => Step(Event(c as int, None), next, more)
    case WithRequired =>
      if more != "" then Step(Event(c as int, Some(more)), i + 1, "")
      else if i + 1 == |a| then Step(Event(BadArg(g.options), None), i + 1, "")
      else Step(Event(c as int, Some(a[i + 1])), i + 2, "")
    case WithOptional => Step(Event(c as int, if more != "" then Some(more) else None), i + 1, "")
  }

  datatype Match = NoMatch | Ambiguous | Found(k: nat)

  /** The search for a long option from position k on, with the partial match so far. */
  function MatchLong(longs: seq<LongOption>, name: string, k: nat, partial: Match): (m: Match)
    requires k <= |longs| && partial != Ambiguous && (partial.Found? ==> partial.k < |longs|)
    ensures m.Found? ==> m.k < |longs|
    decreases |longs| - k
  {
    if k == |longs| then partial
    else if !(name <= longs[k].name) then MatchLong(longs, name, k + 1, partial)
    else if |longs[k].name| == |name| then Found(k)
    else if partial == NoMatch then MatchLong(longs, name, k + 1, Found(k))
    else Ambiguous
  }

  predicate Abbreviates(name: string, o: LongOption) { name <= o.name && name != o.name }

  /** Nothing that starts with the name lies before position k, apart from the partial match. */
  predicate SoFar(longs: seq<LongOption>, name: string, k: nat, partial: Match) {
    && k <= |longs| && partial != Ambiguous
    && (partial.Found? ==> partial.k < k && Abbreviates(name, longs[partial.k]))
    && forall j | 0 <= j < k :: name <= longs[j].name ==> partial == Found(j)
  }

  /** Two abbreviations with no exact match before the second. */
  predicate Unclear(longs: seq<LongOption>, name: string, i: nat, j: nat) {
    && i < j < |longs| && Abbreviates(name, longs[i]) && Abbreviates(name, longs[j])
    && forall n | 0 <= n < j :: longs[n].name != name
  }

  /** The first exact match, not behind two abbreviations; or the only one that starts with the name. */
  predicate Chosen(longs: seq<LongOption>, name: string, k: nat) {
    && k < |longs| && name <= longs[k].name
    && (forall n | 0 <= n < k :: longs[n].name != name)
    && (longs[k].name == name ==> forall i, j | 0 <= i < j < k :: !Unclear(longs, name, i, j))
    && (longs[k].name != name ==> forall n | 0 <= n < |longs| :: name <= longs[n].name ==> n == k)
  }

  /** What the search answers, whatever the table: an exact match counts only while it comes
      before the second abbreviation. */
  ghost predicate Answers(longs: seq<LongOption>, name: string, m: Match) {
    && (m == NoMatch <==> forall n | 0 <= n < |longs| :: !(name <= longs[n].name))
    && (forall n: nat :: m == Found(n) <==> Chosen(longs, name, n))
    && (m == Ambiguous <==> exists i, j :: Unclear(longs, name, i, j))
  }

  lemma EndAnswers(longs: seq<LongOption>, name: string, partial: Match)
    requires SoFar(longs, name, |longs|, partial)
    ensures Answers(longs, name, partial)
  {
    if partial.Found? { assert Chosen(longs, name, partial.k); }
  }

  lemma ExactAnswers(longs: seq<LongOption>, name: string, k: nat, partial: Match)
    requires SoFar(longs, name, k, partial) && k < |longs| && longs[k].name == name
    ensures Answers(longs, name, Found(k))
  {
    assert Chosen(longs, name, k);
  }

  lemma {:induction false} MatchLongAnswers(longs: seq<LongOption>, name: string, k: nat, partial: Match)
    requires SoFar(longs, name, k, partial)
    ensures Answers(longs, name, MatchLong(longs, name, k, partial))
    decreases |longs| - k
  {
    if k == |longs| {
      EndAnswers(longs, name, partial);
    } else if name <= longs[k].name && |longs[k].name| == |name| {
      ExactAnswers(longs, name, k, partial);
    } else if name <= longs[k].name && partial != NoMatch {
      assert Unclear(longs, name, partial.k, k);
    } else {
      MatchLongAnswers(longs, name, k + 1, if name <= longs[k].name then Found(k) else partial);
    }
  }

  /** "foo" behind foobar and foobaz is reported as ambiguous, in front of foobaz it is found. */
  lemma ExactMatchTooLate(o: LongOption, a: LongOption, b: LongOption)
    requires o.name == "foo" && a.name == "foobar" && b.name == "foobaz"
    ensures MatchLong([a, b, o], "foo", 0, NoMatch) == Ambiguous && MatchLong([a, o, b], "foo", 0, NoMatch) == Found(1)
  {
    MatchLongAnswers([a, b, o], "foo", 0, NoMatch);
    MatchLongAnswers([a, o, b], "foo", 0, NoMatch);
    assert Unclear([a, b, o], "foo", 0, 1);
    assert Chosen([a, o, b], "foo", 1);
  }

  /** The long option whose text behind the two dashes is given, in element i. */
  function LongStep(g: Grammar, a: seq<string>, i: nat, text: string): (r: Step)
    requires i < |a|
    ensures i < r.next <= |a| && r.rest == ""
  {
    var eq := Position(text, '=');
    var given := if eq < |text| then Some(text[eq + 1..]) else None;
    match MatchLong(g.longs, text[..eq], 0, NoMatch)
    case NoMatch => Step(Event(BADCH, None), i + 1, "")
    case Ambiguous => Step(Event(BADCH, None), i + 1, "")
    case Found(k) =>
      var o := g.longs[k];
      var code := if o.flag then 0 else o.val;
      if o.hasArg == NoArgument && given.Some? then Step(Event(BadArg(g.options), None), i + 1, "")
      else if o.hasArg == RequiredArgument && given == None then
        if i + 1 == |a| then Step(Event(BadArg(g.options), None), i + 1, "")
        else Step(Event(code, Some(a[i + 1])), i + 2, "")
      else Step(Event(code, if o.hasArg == NoArgument then None else given), i + 1, "")
  }

  // ----- what a whole scan means -----

  /** The reports, the options with their arguments, the other arguments, each in their order,
      and where the scan stops. */
  datatype Parsed = Parsed(events: seq<Event>, opts: seq<string>, nonopts: seq<string>, stop: nat)

  function Join(events: seq<Event>, opts: seq<string>, nonopts: seq<string>, p: Parsed): Parsed {
    Parsed(events + p.events, opts + p.opts, nonopts + p.nonopts, p.stop)
  }

  predicate IsOption(s: string) { |s| >= 2 && s[0] == '-' }

  function Weight(a: seq<string>, i: nat, place: string): nat {
    if place != "" then |place| else if i < |a| then |a[i]| + 1 else 0
  }

  /** The meaning of the arguments from element i on, of which only place is left. */
  function Parse(g: Grammar, a: seq<string>, i: nat, place: string): (p: Parsed)
    requires i <= |a| && (place != "" ==> i < |a|)
    ensures i <= p.stop <= |a|
    decreases |a| - i, Weight(a, i, place)
  {
    if place != "" then
      var s := ShortStep(g, a, i, place);
      Join([s.event], a[i..s.next], [], Parse(g, a, s.next, s.rest))
    else if i == |a| then Parsed([], [], [], i)
    else if !IsOption(a[i]) then Join([], [], [a[i]], Parse(g, a, i + 1, ""))
    else if a[i] == "--" then Parsed([], [a[i]], [], i + 1)
    else if a[i][1] == '-' then
      var s := LongStep(g, a, i, a[i][2..]);
      Join([s.event], a[i..s.next], [], Parse(g, a, s.next, ""))
    else Parse(g, a, i, a[i][1..])
  }

  /** Merged holds the elements of two sequences, each in its order. */
  predicate Interleaves(merged: seq<string>, a: seq<string>, b: seq<string>) {
    if merged == [] then a == [] && b == []
    else
      || (a != [] && a[0] == merged[0] && Interleaves(merged[1..], a[1..], b))
      || (b != [] && b[0] == merged[0] && Interleaves(merged[1..], a, b[1..]))
  }

  lemma {:induction false} Prepend(x: seq<string>, merged: seq<string>, a: seq<string>, b: seq<string>)
    requires Interleaves(merged, a, b)
    ensures Interleaves(x + merged, x + a, b)
  {
    if x == [] {
      assert x + merged == merged && x + a == a;
    } else {
      Prepend(x[1..], merged, a, b);
      assert (x + merged)[1..] == x[1..] + merged && (x + a)[1..] == x[1..] + a;
    }
  }

  lemma HeadFirst(s: seq<string>)
    requires s != []
    ensures multiset(s) == multiset{s[0]} + multiset(s[1..])
  {
    assert s == [s[0]] + s[1..];
  }

  lemma {:induction false} NothingLost(merged: seq<string>, a: seq<string>, b: seq<string>)
    requires Interleaves(merged, a, b)
    ensures multiset(merged) == multiset(a) + multiset(b)
  {
    if merged != [] {
      HeadFirst(merged);
      if a != [] && a[0] == merged[0] && Interleaves(merged[1..], a[1..], b) {
        NothingLost(merged[1..], a[1..], b);
        HeadFirst(a);
        assert multiset(merged) == multiset{merged[0]} + (multiset(a[1..]) + multiset(b));
      } else {
        NothingLost(merged[1..], a, b[1..]);
        HeadFirst(b);
        assert multiset(merged) == multiset{merged[0]} + (multiset(a) + multiset(b[1..]));
      }
    }
  }

  lemma PartAndRest(a: seq<string>, i: nat, next: nat, p: Parsed)
    requires i <= next <= p.stop <= |a| && Interleaves(a[next..p.stop], p.opts, p.nonopts)
    ensures Interleaves(a[i..p.stop], a[i..next] + p.opts, [] + p.nonopts)
  {
    assert [] + p.nonopts == p.nonopts;
    Prepend(a[i..next], a[next..p.stop], p.opts, p.nonopts);
    assert a[i..p.stop] == a[i..next] + a[next..p.stop];
  }

  lemma SkippedAndRest(a: seq<string>, i: nat, p: Parsed)
    requires i < p.stop <= |a| && Interleaves(a[i + 1..p.stop], p.opts, p.nonopts)
    ensures Interleaves(a[i..p.stop], [] + p.opts, [a[i]] + p.nonopts)
  {
    assert a[i..p.stop][1..] == a[i + 1..p.stop] && [] + p.opts == p.opts && ([a[i]] + p.nonopts)[1..] == p.nonopts;
  }

  lemma OneAndNone(a: seq<string>, i: nat)
    requires i < |a|
    ensures Interleaves(a[i..i + 1], [a[i]], [])
  {
    assert a[i..i + 1][1..] == [] == [a[i]][1..];
  }

  /** The elements from i to where the scan stops are the options with what they consumed and
      the other arguments, merged: each kind keeps its order. */
  lemma {:induction false} ParsePartitions(g: Grammar, a: seq<string>, i: nat, place: string)
    requires i <= |a| && (place != "" ==> i < |a|)
    ensures var p := Parse(g, a, i, place);
      Interleaves(a[i..p.stop], p.opts, p.nonopts)
    decreases |a| - i, Weight(a, i, place)
  {
    if place != "" {
      var s := ShortStep(g, a, i, place);
      ParsePartitions(g, a, s.next, s.rest);
      PartAndRest(a, i, s.next, Parse(g, a, s.next, s.rest));
    } else if i < |a| {
      if !IsOption(a[i]) {
        ParsePartitions(g, a, i + 1, "");
        SkippedAndRest(a, i, Parse(g, a, i + 1, ""));
      } else if a[i] == "--" {
        OneAndNone(a, i);
      } else if a[i][1] == '-' {
        var s := LongStep(g, a, i, a[i][2..]);
        ParsePartitions(g, a, s.next, "");
        PartAndRest(a, i, s.next, Parse(g, a, s.next, ""));
      } else {
        ParsePartitions(g, a, i, a[i][1..]);
      }
    }
  }

  /** The skipped arguments are not options, and all of them before the stop are skipped or
      consumed: nothing that follows a stop at the end of the vector is left. */
  lemma {:induction false} SkippedAreNoOptions(g: Grammar, a: seq<string>, i: nat, place: string)
    requires i <= |a| && (place != "" ==> i < |a|)
    ensures forall k | 0 <= k < |Parse(g, a, i, place).nonopts| :: !IsOption(Parse(g, a, i, place).nonopts[k])
    ensures var p := Parse(g, a, i, place);
      p.stop < |a| ==> p.opts != [] && p.opts[|p.opts| - 1] == "--"
    decreases |a| - i, Weight(a, i, place)
  {
    if place != "" {
      var s := ShortStep(g, a, i, place);
      SkippedAreNoOptions(g, a, s.next, s.rest);
    } else if i < |a| {
      if !IsOption(a[i]) {
        SkippedAreNoOptions(g, a, i + 1, "");
      } else if a[i] != "--" {
        if a[i][1] == '-' {
          var s := LongStep(g, a, i, a[i][2..]);
          SkippedAreNoOptions(g, a, s.next, "");
        } else {
          SkippedAreNoOptions(g, a, i, a[i][1..]);
        }
      }
    }
  }

  /** The first n of the arguments left are no options. */
  predicate StartsAfterOptions(left: seq<string>, n: nat) { n <= |left| && forall k | 0 <= k < n :: !IsOption(left[k]) }

  lemma ScanPermutes(g: Grammar, a: seq<string>, r: seq<string>, optind: int)
    requires |a| >= 1
    requires var p := Parse(g, a, 1, "");
      r == [a[0]] + p.opts + p.nonopts + a[p.stop..] && optind == 1 + |p.opts|
    ensures var p := Parse(g, a, 1, "");
      Interleaves(a[1..p.stop], p.opts, p.nonopts)
    ensures multiset(r) == multiset(a) && optind <= |r|
    ensures StartsAfterOptions(r[optind..], |Parse(g, a, 1, "").nonopts|)
  {
    var p := Parse(g, a, 1, "");
    ParsePartitions(g, a, 1, "");
    NothingLost(a[1..p.stop], p.opts, p.nonopts);
    assert a[1..] == a[1..p.stop] + a[p.stop..];
    SkippedAreNoOptions(g, a, 1, "");
    Assembled(a, p.opts, p.nonopts, a[p.stop..]);
  }

  lemma Assembled(a: seq<string>, opts: seq<string>, nonopts: seq<string>, rest: seq<string>)
    requires a != [] && multiset(opts) + multiset(nonopts) + multiset(rest) == multiset(a[1..])
    ensures var r := [a[0]] + opts + nonopts + rest;
      multiset(r) == multiset(a) && r[1 + |opts|..] == nonopts + rest
  {
    assert a == [a[0]] + a[1..];
  }

  /** Joining in two steps. */
  lemma JoinJoin(e: seq<Event>, o: seq<string>, n: seq<string>, e': seq<Event>, o': seq<string>, n': seq<string>,
          p: Parsed)
    ensures Join(e, o, n, Join(e', o', n', p)) == Join(e + e', o + o', n + n', p)
  {
    assert e + (e' + p.events) == e + e' + p.events;
    assert o + (o' + p.opts) == o + o' + p.opts;
    assert n + (n' + p.nonopts) == n + n' + p.nonopts;
  }

  /** The part that is consumed joins the options in front, if nothing was skipped, or those behind. */
  lemma PartMoves(x: string, front: seq<string>, skipped: seq<string>, behind: seq<string>, part: seq<string>,
          rest: seq<string>)
    ensures [x] + front + skipped + (behind + part) + rest == [x] + front + skipped + behind + (part + rest)
    ensures front + (behind + part) == front + behind + part
    ensures skipped == [] && behind == [] ==>
              && [x] + (front + part) + skipped + behind + rest == [x] + front + skipped + behind + (part + rest)
              && front + part + behind == front + behind + part
  {}

  lemma SkippedGrows(g: Grammar, a: seq<string>, i: nat, events: seq<Event>, seen: seq<string>, skipped: seq<string>)
    requires i < |a| && !IsOption(a[i])
    ensures Join(events, seen, skipped, Parse(g, a, i, ""))
      == Join(events, seen, skipped + [a[i]], Parse(g, a, i + 1, ""))
  {
    JoinJoin(events, seen, skipped, [], [], [a[i]], Parse(g, a, i + 1, ""));
    assert events + [] == events && seen + [] == seen;
  }

  lemma DashesEnd(g: Grammar, a: seq<string>, i: nat, events: seq<Event>, seen: seq<string>, skipped: seq<string>)
    requires i < |a| && a[i] == "--"
    ensures Join(events, seen, skipped, Parse(g, a, i, "")) == Parsed(events, seen + ["--"], skipped, i + 1)
  {
    assert events + [] == events && skipped + [] == skipped;
  }

  lemma JoinSkipped(x: string, front: seq<string>, skipped: seq<string>, rest: seq<string>)
    ensures front + skipped + [] + ([x] + rest) == front + (skipped + [x]) + [] + rest
  {}

  // ----- the scanner -----

  datatype Outcome = Finished | Reported(code: int)

  /** The static variables of getopt_long.c and the argument vector they range over. The
      ghost variables name the parts of the vector before optind: options, then skipped
      arguments, then options found behind those; and what has been reported. */
  class Scanner {
    const g: Grammar
    const args: array<string>
    var optind: int
    var optarg: Option<string>
    var place: string
    var nonoptStart: int
    var nonoptEnd: int
    ghost const orig: seq<string>
    ghost var front: seq<string>
    ghost var skipped: seq<string>
    ghost var behind: seq<string>
    ghost var events: seq<Event>

    constructor (g: Grammar, args: array<string>)
      requires args.Length >= 1 && Permuting(g)
      ensures Valid() && this.g == g && this.args == args && orig == args[..] && events == [] && optind == 1
    {
      this.g, this.args, orig := g, args, args[..];
      optind, optarg, place, nonoptStart, nonoptEnd := 1, None, "", -1, -1;
      front, skipped, behind, events := [], [], [], [];
      new;
      assert args[..] == [args[0]] + args[1..];
      assert Whole() == Join([], [], [], Whole());
    }

    ghost function Whole(): Parsed
      requires |orig| >= 1
    {
      Parse(g, orig, 1, "")
    }

    /** How the vector is laid out, and where the static variables point into it. */
    ghost predicate Layout()
      reads this, args
    {
      && Permuting(g) && 1 <= optind <= args.Length == |orig| && optind == 1 + |front| + |skipped| + |behind|
      && args[..] == [orig[0]] + front + skipped + behind + orig[optind..]
      && (nonoptStart == -1 ==> nonoptEnd == -1 && skipped == [] && behind == [])
      && (nonoptStart != -1 ==> nonoptStart == 1 + |front| && skipped != [])
      && (nonoptEnd == -1 ==> behind == [])
      && (nonoptEnd != -1 ==> nonoptEnd == 1 + |front| + |skipped|)
    }

    /** What has been seen, followed by the meaning of the rest, is the meaning of it all. */
    ghost predicate Agrees(rest: string)
      requires Layout() && (rest != "" ==> optind < |orig|)
      reads this, args
    {
      Whole() == Join(events, front + behind, skipped, Parse(g, orig, optind, rest))
    }

    /** Between two calls. */
    ghost predicate Valid()
      reads this, args
    {
      && Layout() && (place != "" ==> optind < |orig| && (nonoptStart != -1 ==> nonoptEnd != -1))
      && Agrees(place) && (place == "" && nonoptEnd != -1 ==> behind != [])
    }

    /** After the last call: options first, then the other arguments, then what the scan did
        not look at, each in their order; optind is the first that is no option. */
    ghost predicate Complete()
      requires |orig| >= 1
      reads this, args
    {
      && args[..] == [orig[0]] + Whole().opts + Whole().nonopts + orig[Whole().stop..]
      && optind == 1 + |Whole().opts| && events == Whole().events
    }

    /** The two blocks before optind change places. */
    method Exchange()
      requires Layout() && nonoptEnd != -1 && behind != []
      modifies args
      ensures args[..] == [orig[0]] + front + behind + skipped + orig[optind..]
    {
      ghost var s := args[..];
      PermuteArgs(args, nonoptStart, nonoptEnd, optind);
      assert s[..nonoptStart] == [orig[0]] + front && s[nonoptStart..nonoptEnd] == skipped;
      assert s[nonoptEnd..optind] == behind && s[optind..] == orig[optind..];
    }

    /** The options found behind the skipped arguments join those in front of them. */
    method Regroup()
      requires Valid() && place == "" && nonoptEnd != -1
      modifies this`nonoptStart, this`nonoptEnd, this`front, this`behind, args
      ensures Layout() && Agrees("") && nonoptStart != -1 && nonoptEnd == -1
    {
      ghost var seen := front + behind;
      Exchange();
      nonoptStart := optind - (nonoptEnd - nonoptStart);
      nonoptEnd := -1;
      front, behind := seen, [];
      assert front + behind == seen && [orig[0]] + seen + skipped + behind == [orig[0]] + seen + skipped;
    }

    /** An argument that is no option: it joins the skipped ones. */
    method Skip()
      requires Valid() && place == "" && optind < args.Length && !IsOption(orig[optind])
      modifies this`optind, this`nonoptStart, this`nonoptEnd, this`front, this`skipped, this`behind, args
      ensures Valid() && optind == old(optind) + 1
    {
      if nonoptStart == -1 {
        nonoptStart := optind;
      } else if nonoptEnd != -1 {
        Regroup();
      }
      assert orig[optind..] == [orig[optind]] + orig[optind + 1..];
      JoinSkipped(orig[optind], [orig[0]] + front, skipped, orig[optind + 1..]);
      SkippedGrows(g, orig, optind, events, front + behind, skipped);
      skipped := skipped + [orig[optind]];
      optind := optind + 1;
    }

    /** The end of the vector. */
    method AtEnd()
      requires Valid() && place == "" && optind == args.Length
      modifies this`optind, this`nonoptStart, this`nonoptEnd, args
      ensures Complete() && place == ""
    {
      if nonoptEnd != -1 {
        Exchange();
        optind := optind - (nonoptEnd - nonoptStart);
      } else if nonoptStart != -1 {
        optind := nonoptStart;
      }
      nonoptStart, nonoptEnd := -1, -1;
    }

    /** The part of getopt_internal that looks for the next element: -1 at the end, -2 for two
        dashes, 0 for a letter. */
    method NextElement() returns (r: int)
      requires Valid() && place == ""
      modifies this, args
      ensures r in {-1, -2, 0} && events == old(events) && optarg == old(optarg)
      ensures r == -1 ==> Complete() && place == ""
      ensures r == -2 ==> Layout() && optind < |orig| && IsOption(orig[optind]) && orig[optind][1] == '-'
      ensures r == -2 ==> place == orig[optind][2..] && (nonoptStart != -1 ==> nonoptEnd != -1) && Agrees("")
      ensures r == 0 ==> Valid() && place != ""
      ensures r != -1 ==> optind >= old(optind)
      ensures r == 0 && optind == old(optind) ==> |place| < |orig[optind]|
    {
      while true
        invariant Valid() && place == "" && events == old(events) && optarg == old(optarg) && optind >= old(optind)
        decreases args.Length - optind
      {
        if optind >= args.Length {
          AtEnd();
          return -1;
        }
        assert args[optind] == args[..][optind] == orig[optind];
        place := args[optind];
        if !(|place| >= 2 && place[0] == '-') {
          place := "";
          Skip();
        } else {
          if nonoptStart != -1 && nonoptEnd == -1 { nonoptEnd := optind; }
          place := place[1..];
          if place[0] == '-' {
            place := place[1..];
            return -2;
          }
          return 0;
        }
      }
    }

    /** The element or elements that a step consumes become options seen. */
    ghost method Consume(s: Step, before: nat)
      requires Layout() && before == optind <= s.next <= args.Length && (nonoptStart != -1 ==> nonoptEnd != -1)
      requires s.rest != "" ==> s.next < |orig|
      requires var on := Join([s.event], orig[optind..s.next], [], Parse(g, orig, s.next, s.rest));
        Whole() == Join(events, front + behind, skipped, on)
      modifies this`front, this`behind, this`events
      ensures events == old(events) + [s.event]
      ensures front + behind == old(front + behind) + orig[optind..s.next] && (nonoptEnd == -1 ==> behind == [])
      ensures nonoptEnd != -1 ==> front == old(front) && |behind| == |old(behind)| + (s.next - optind)
      ensures args[..] == [orig[0]] + front + skipped + behind + orig[s.next..]
      ensures Whole() == Join(events, front + behind, skipped, Parse(g, orig, s.next, s.rest))
    {
      var part := orig[optind..s.next];
      JoinJoin(events, front + behind, skipped, [s.event], part, [], Parse(g, orig, s.next, s.rest));
      assert skipped + [] == skipped;
      assert orig[optind..] == part + orig[s.next..];
      PartMoves(orig[0], front, skipped, behind, part, orig[s.next..]);
      if nonoptEnd == -1 { front := front + part; } else { behind := behind + part; }
      events := events + [s.event];
    }

    method ShortOption() returns (r: int)
      requires Valid() && place != "" && optarg == None
      modifies this
      ensures Valid() && r >= 0
      ensures var s := ShortStep(g, orig, old(optind), old(place));
        && Event(r, optarg) == s.event && events == old(events) + [s.event] && optind == s.next && place == s.rest
    {
      ghost var s := ShortStep(g, orig, optind, place);
      assert optind + 1 < args.Length ==> args[optind + 1] == args[..][optind + 1] == orig[optind + 1];
      Consume(s, optind);
      r := TakeLetter();
    }

    /** The part of getopt_internal that handles one letter. */
    method TakeLetter() returns (r: int)
      requires args.Length == |orig| && 0 <= optind < |orig| && place != "" && optarg == None
      requires optind + 1 < args.Length ==> args[optind + 1] == orig[optind + 1]
      modifies this`optind, this`optarg, this`place
      ensures var s := ShortStep(g, orig, old(optind), old(place));
        r >= 0 && Event(r, optarg) == s.event && optind == s.next && place == s.rest
    {
      var optchar := place[0];
      place := place[1..];
      var oli := Position(g.options, optchar);
      if optchar == ':' || oli == |g.options| {
        if place == "" { optind := optind + 1; }
        r := BADCH;
      } else if oli + 1 == |g.options| || g.options[oli + 1] != ':' {
        if place == "" { optind := optind + 1; }
        r := optchar as int;
      } else {
        r := optchar as int;
        if place != "" {
          optarg := Some(place);
        } else if oli + 2 == |g.options| || g.options[oli + 2] != ':' {
          optind := optind + 1;
          if optind >= args.Length {
            place := "";
            return BadArg(g.options);
          }
          optarg := Some(args[optind]);
        }
        place := "";
        optind := optind + 1;
      }
    }

    method GetoptInternal() returns (r: int)
      requires Valid()
      modifies this, args
      ensures r >= -2 && (r != -1 ==> optind >= old(optind))
      ensures r < 0 ==> events == old(events) && optarg == None
      ensures r == -1 ==> Complete() && place == ""
      ensures r == -2 ==> Layout() && optind < |orig| && IsOption(orig[optind]) && orig[optind][1] == '-'
      ensures r == -2 ==> place == orig[optind][2..] && (nonoptStart != -1 ==> nonoptEnd != -1) && Agrees("")
      ensures r >= 0 ==> Valid() && events == old(events) + [Event(r, optarg)]
      ensures r >= 0 ==> optind > old(optind) || Weight(orig, optind, place) < old(Weight(orig, optind, place))
    {
      optarg := None;
      if place == "" {
        r := NextElement();
        if r != 0 { return; }
      }
      r := ShortOption();
    }

    /** "--": the scan stops behind it. */
    method Stop()
      requires Layout() && optind < |orig| && orig[optind] == "--" && place == ""
      requires (nonoptStart != -1 ==> nonoptEnd != -1) && Agrees("")
      modifies this`optind, this`nonoptStart, this`nonoptEnd, this`front, this`behind, args
      ensures Complete()
    {
      assert orig[optind..] == ["--"] + orig[optind + 1..];
      PartMoves(orig[0], front, skipped, behind, ["--"], orig[optind + 1..]);
      DashesEnd(g, orig, optind, events, front + behind, skipped);
      if nonoptEnd == -1 { front := front + ["--"]; } else { behind := behind + ["--"]; }
      optind := optind + 1;
      if nonoptEnd != -1 {
        Exchange();
        optind := optind - (nonoptEnd - nonoptStart);
      }
      nonoptStart, nonoptEnd := -1, -1;
    }

    /** The loop over the long options. */
    method FindLong(name: string) returns (m: Match)
      ensures Answers(g.longs, name, m) && m == MatchLong(g.longs, name, 0, NoMatch)
    {
      MatchLongAnswers(g.longs, name, 0, NoMatch);
      m := NoMatch;
      var i := 0;
      while i < |g.longs|
        invariant i <= |g.longs| && m != Ambiguous && (m.Found? ==> m.k < |g.longs|)
        invariant MatchLong(g.longs, name, i, m) == MatchLong(g.longs, name, 0, NoMatch)
      {
        if name <= g.longs[i].name {
          if |g.longs[i].name| == |name| { return Found(i); }
          if m != NoMatch { return Ambiguous; }
          m := Found(i);
        }
        i := i + 1;
      }
    }

    method LongOptionAt(text: string) returns (code: int)
      requires Layout() && optind < |orig| && IsOption(orig[optind]) && orig[optind][1] == '-'
      requires text == orig[optind][2..] != ""
      requires place == "" && optarg == None && (nonoptStart != -1 ==> nonoptEnd != -1) && Agrees("")
      modifies this`optind, this`optarg, this`front, this`behind, this`events
      ensures Valid() && optind > old(optind) && events == old(events) + [Event(code, optarg)]
    {
      ghost var s := LongStep(g, orig, optind, text);
      assert optind + 1 < args.Length ==> args[optind + 1] == args[..][optind + 1] == orig[optind + 1];
      Consume(s, optind);
      code := TakeLong(text);
    }

    /** The part of getopt_long that handles a long option; text is what follows the dashes. */
    method TakeLong(text: string) returns (code: int)
      requires args.Length == |orig| && 0 <= optind < |orig| && optarg == None
      requires optind + 1 < args.Length ==> args[optind + 1] == orig[optind + 1]
      modifies this`optind, this`optarg
      ensures var s := LongStep(g, orig, old(optind), text);
        Event(code, optarg) == s.event && optind == s.next
    {
      optind := optind + 1;
      var eq := Position(text, '=');
      var given := if eq < |text| then Some(text[eq + 1..]) else None;
      var m := FindLong(text[..eq]);
      if !m.Found? { return BADCH; }
      var o := g.longs[m.k];
      if o.hasArg == NoArgument && given.Some? { return BadArg(g.options); }
      if o.hasArg == RequiredArgument || o.hasArg == OptionalArgument {
        if given.Some? {
          optarg := given;
        } else if o.hasArg == RequiredArgument {
          optarg := if optind < args.Length then Some(args[optind]) else None;
          optind := optind + 1;
        }
      }
      if o.hasArg == RequiredArgument && optarg == None {
        optind := optind - 1;
        return BadArg(g.options);
      }
      code := if o.flag then 0 else o.val;
    }

    /** getopt_long: one more report, or the end of the scan. */
    method GetoptLong() returns (r: Outcome)
      requires Valid()
      modifies this, args
      ensures r.Finished? ==> Complete() && events == old(events)
      ensures r.Reported? ==> Valid() && events == old(events) + [Event(r.code, optarg)]
      ensures r.Reported? ==>
        || optind > old(optind)
        || (optind == old(optind) && Weight(orig, optind, place) < old(Weight(orig, optind, place)))
    {
      var c := GetoptInternal();
      if c == -1 { return Finished; }
      if c >= 0 { return Reported(c); }
      var text := place;
      place := "";
      if text == "" {
        Stop();
        return Finished;
      }
      c := LongOptionAt(text);
      r := Reported(c);
    }

    /** Calling getopt_long until it returns -1: the reports are those of the specification,
        the vector is a permutation of the original one in which the options with the
        arguments they consumed come first, in their order, then the other arguments, in
        theirs, then what follows "--"; and optind points at the first that is no option. */
    method ScanAll() returns (reports: seq<Event>)
      requires Valid() && events == []
      modifies this, args
      ensures Complete() && reports == Whole().events
      ensures Interleaves(orig[1..Whole().stop], Whole().opts, Whole().nonopts) && multiset(args[..]) == multiset(orig)
      ensures optind <= args.Length && StartsAfterOptions(args[optind..], |Whole().nonopts|)
    {
      reports := [];
      while true
        invariant Valid() && reports == events
        decreases args.Length - optind, Weight(orig, optind, place)
      {
        var r := GetoptLong();
        if r == Finished { break; }
        reports := reports + [Event(r.code, optarg)];
      }
      ScanPermutes(g, orig, args[..], optind);
      assert args[..][optind..] == args[optind..];
    }
  }
}
