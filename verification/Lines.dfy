/** Command lines: written from a list of items and scanned, they give back the items. What the
    option string and the long options mean is said here on their texts alone. */
module CommandLines {
  import opened Tables
  import opened Getopt

  // ----- what the option string says -----

  /** Position k is the first of the letter. */
  predicate FirstAt(options: string, c: char, k: nat) { k < |options| && options[k] == c && c !in options[..k] }

  predicate Undeclared(options: string, c: char) { c == ':' || c !in options }

  /** A letter that no colon follows. */
  predicate NoArgumentFor(options: string, c: char) {
    c != ':' && exists k | 0 <= k < |options| ::
      FirstAt(options, c, k) && (k + 1 == |options| || options[k + 1] != ':')
  }

  /** A letter that one colon follows. */
  predicate ArgumentFor(options: string, c: char) {
    c != ':' && exists k | 0 <= k < |options| ::
      && FirstAt(options, c, k) && k + 1 < |options| && options[k + 1] == ':'
      && (k + 2 == |options| || options[k + 2] != ':')
  }

  /** A letter that two colons follow. */
  predicate MaybeArgumentFor(options: string, c: char) {
    c != ':' && exists k | 0 <= k < |options| ::
      FirstAt(options, c, k) && k + 2 < |options| && options[k + 1] == options[k + 2] == ':'
  }

  lemma PositionIs(options: string, c: char, k: nat)
    requires FirstAt(options, c, k)
    ensures Position(options, c) == k
  {
    forall i | 0 <= i < k ensures options[i] != c { assert options[..k][i] == options[i]; }
  }

  /** For each letter exactly one of these is the case, and the scanner goes by it. */
  lemma KindIs(options: string, c: char)
    ensures Undeclared(options, c) ==> ShortKind(options, c) == Unknown
    ensures NoArgumentFor(options, c) ==> ShortKind(options, c) == Plain
    ensures ArgumentFor(options, c) ==> ShortKind(options, c) == WithRequired
    ensures MaybeArgumentFor(options, c) ==> ShortKind(options, c) == WithOptional
  {
    forall k: nat | FirstAt(options, c, k) ensures Position(options, c) == k { PositionIs(options, c, k); }
    if c !in options { assert Position(options, c) == |options|; }
  }

  /** An argument that is missing is reported as ':' if the option string starts with one. */
  function Missing(options: string): Event {
    Event(if options != "" && options[0] == ':' then ':' as int else '?' as int, None)
  }

  const UNKNOWN := Event('?' as int, None)

  // ----- items -----

  /** How a group of letters ends: with one more letter without argument, with a letter whose
      optional argument is left out, or with a letter and its argument, in the same element or in
      the next. */
  datatype Ending = Alone(c: char) | Bare(c: char) | Glued(c: char, arg: string) | Apart(c: char, arg: string)

  /** One or two elements of a command line. A long option carries its place in the table of long
      options, if it has one. */
  datatype Item =
    | Letters(before: string, end: Ending)
    | Long(name: string, k: Option<nat>)
    | LongGiven(name: string, k: Option<nat>, arg: string)
    | LongNext(name: string, place: nat, arg: string)
    | Other(text: string)

  function EndText(e: Ending): (s: string)
    ensures s != ""
  {
    match e
    case Alone(c) => [c]
    case Bare(c) => [c]
    case Glued(c, x) => [c] + x
    case Apart(c, _) => [c]
  }

  function Render(x: Item): seq<string> {
    match x
    case Letters(ls, e) => ["-" + (ls + EndText(e))] + if e.Apart? then [e.arg] else []
    case Long(name, _) => ["--" + name]
    case LongGiven(name, _, arg) => ["--" + (name + "=" + arg)]
    case LongNext(name, _, arg) => ["--" + name, arg]
    case Other(text) => [text]
  }

  predicate LegalEnd(options: string, e: Ending) {
    match e
    case Alone(c) => NoArgumentFor(options, c) || Undeclared(options, c)
    case Bare(c) => MaybeArgumentFor(options, c)
    case Glued(c, x) => x != "" && (ArgumentFor(options, c) || MaybeArgumentFor(options, c))
    case Apart(c, _) => ArgumentFor(options, c)
  }

  /** k is the place of the option that the name, or an abbreviation, stands for. */
  ghost predicate Names(longs: seq<LongOption>, name: string, k: Option<nat>) {
    && name != "" && '=' !in name
    && match k
       case Some(n) => Chosen(longs, name, n)
       case None => forall n: nat :: !Chosen(longs, name, n)
  }

  ghost predicate Legal(g: Grammar, x: Item) {
    match x
    case Letters(ls, e) =>
      && (forall t | 0 <= t < |ls| :: NoArgumentFor(g.options, ls[t]) || Undeclared(g.options, ls[t]))
      && LegalEnd(g.options, e) && (ls + EndText(e))[0] != '-'
    case Long(name, k) =>
      Names(g.longs, name, k) && (k.Some? && k.value < |g.longs| ==> g.longs[k.value].hasArg != RequiredArgument)
    case LongGiven(name, k, _) => Names(g.longs, name, k)
    case LongNext(name, k, _) =>
      Names(g.longs, name, Some(k)) && (k < |g.longs| ==> g.longs[k].hasArg == RequiredArgument)
    case Other(text) => text == "" || text[0] != '-' || text == "-"
  }

  // ----- what an item means -----

  function LetterEvent(options: string, c: char): Event {
    if Undeclared(options, c) then UNKNOWN else Event(c as int, None)
  }

  function LetterEvents(options: string, ls: string): seq<Event> {
    if ls == "" then [] else [LetterEvent(options, ls[0])] + LetterEvents(options, ls[1..])
  }

  function EndEvent(options: string, e: Ending): Event {
    match e
    case Alone(c) => LetterEvent(options, c)
    case Bare(c) => Event(c as int, None)
    case Glued(c, x) => Event(c as int, Some(x))
    case Apart(c, x) => Event(c as int, Some(x))
  }

  /** 0 for an option with a flag to set, otherwise its value. */
  function CodeOf(o: LongOption): int { if o.flag then 0 else o.val }

  function Meaning(g: Grammar, x: Item): seq<Event> {
    match x
    case Letters(ls, e) => LetterEvents(g.options, ls) + [EndEvent(g.options, e)]
    case Long(_, k) =>
      if k == None || k.value >= |g.longs| then [UNKNOWN] else [Event(CodeOf(g.longs[k.value]), None)]
    case LongGiven(_, k, arg) =>
      if k == None || k.value >= |g.longs| then [UNKNOWN]
      else if g.longs[k.value].hasArg == NoArgument then [Missing(g.options)]
      else [Event(CodeOf(g.longs[k.value]), Some(arg))]
    case LongNext(_, k, arg) => if k >= |g.longs| then [UNKNOWN] else [Event(CodeOf(g.longs[k]), Some(arg))]
    case Other(_) => []
  }

  function Written(x: Item): (seq<string>, seq<string>) { if x.Other? then ([], Render(x)) else (Render(x), []) }

  // ----- scanning one item -----

  /** A letter in front of others. */
  lemma LetterFirst(g: Grammar, a: seq<string>, i: nat, c: char, more: string)
    requires i < |a| && more != "" && (NoArgumentFor(g.options, c) || Undeclared(g.options, c))
    ensures Parse(g, a, i, [c] + more) == Join([LetterEvent(g.options, c)], [], [], Parse(g, a, i, more))
  {
    KindIs(g.options, c);
    assert ([c] + more)[1..] == more && a[i..i] == [];
  }

  lemma {:induction false} LettersFirst(g: Grammar, a: seq<string>, i: nat, ls: string, more: string)
    requires i < |a| && more != ""
    requires forall t | 0 <= t < |ls| :: NoArgumentFor(g.options, ls[t]) || Undeclared(g.options, ls[t])
    ensures Parse(g, a, i, ls + more) == Join(LetterEvents(g.options, ls), [], [], Parse(g, a, i, more))
  {
    if ls == "" {
      assert ls + more == more;
      NothingJoined(Parse(g, a, i, more));
    } else {
      LettersFirst(g, a, i, ls[1..], more);
      FirstLetter(ls, more);
      LetterFirst(g, a, i, ls[0], ls[1..] + more);
      JoinJoin([LetterEvent(g.options, ls[0])], [], [], LetterEvents(g.options, ls[1..]), [], [], Parse(g, a, i, more));
    }
  }

  lemma FirstLetter(ls: string, more: string)
    requires ls != ""
    ensures ls + more == [ls[0]] + (ls[1..] + more)
  {}

  lemma NothingJoined(p: Parsed)
    ensures Join([], [], [], p) == p
  {}

  /** The last letter of an element, with what belongs to it. */
  lemma EndLast(g: Grammar, a: seq<string>, i: nat, e: Ending)
    requires LegalEnd(g.options, e) && i < |a| && (e.Apart? ==> i + 1 < |a| && a[i + 1] == e.arg)
    ensures var next := if e.Apart? then i + 2 else i + 1;
      Parse(g, a, i, EndText(e)) == Join([EndEvent(g.options, e)], a[i..next], [], Parse(g, a, next, ""))
  {
    KindIs(g.options, e.c);
    var place := EndText(e);
    assert place[0] == e.c && place[1..] == if e.Glued? then e.arg else "";
  }

  predicate LiesAt(a: seq<string>, i: nat, part: seq<string>) { i + |part| <= |a| && a[i..i + |part|] == part }

  lemma LettersScanned(g: Grammar, a: seq<string>, i: nat, x: Item)
    requires x.Letters? && Legal(g, x) && LiesAt(a, i, Render(x))
    ensures Parse(g, a, i, "") == Join(Meaning(g, x), Render(x), [], Parse(g, a, i + |Render(x)|, ""))
  {
    var text := x.before + EndText(x.end);
    assert a[i] == a[i..i + |Render(x)|][0] == "-" + text;
    if x.end.Apart? { assert a[i + 1] == a[i..i + 2][1]; }
    GroupOpens(g, a, i, text);
    LettersFirst(g, a, i, x.before, EndText(x.end));
    EndLast(g, a, i, x.end);
    LettersJoin(g, x, Parse(g, a, i, EndText(x.end)), Parse(g, a, i + |Render(x)|, ""));
  }

  lemma LettersJoin(g: Grammar, x: Item, p: Parsed, q: Parsed)
    requires x.Letters? && p == Join([EndEvent(g.options, x.end)], Render(x), [], q)
    ensures Join(LetterEvents(g.options, x.before), [], [], p) == Join(Meaning(g, x), Render(x), [], q)
  {
    JoinJoin(LetterEvents(g.options, x.before), [], [], [EndEvent(g.options, x.end)], Render(x), [], q);
    assert [] + Render(x) == Render(x);
  }

  lemma GroupOpens(g: Grammar, a: seq<string>, i: nat, text: string)
    requires i < |a| && text != "" && text[0] != '-' && a[i] == "-" + text
    ensures Parse(g, a, i, "") == Parse(g, a, i, text)
  {
    assert ("-" + text)[1..] == text;
  }

  lemma LongOpens(g: Grammar, a: seq<string>, i: nat, text: string)
    requires i < |a| && text != "" && a[i] == "--" + text
    ensures var s := LongStep(g, a, i, text);
      Parse(g, a, i, "") == Join([s.event], a[i..s.next], [], Parse(g, a, s.next, ""))
  {
    assert ("--" + text)[2..] == text && ("--" + text)[1] == '-';
  }

  lemma OtherScanned(g: Grammar, a: seq<string>, i: nat, text: string)
    requires Legal(g, Other(text)) && LiesAt(a, i, [text])
    ensures Parse(g, a, i, "") == Join([], [], [text], Parse(g, a, i + 1, ""))
  {
    assert a[i] == a[i..i + 1][0] == text;
  }

  /** The name in front of an equals sign, or all of it. */
  lemma NameOf(name: string, arg: string)
    requires '=' !in name
    ensures Position(name, '=') == |name| && name[..|name|] == name
    ensures var text := name + "=" + arg;
      Position(text, '=') == |name| && text[..|name|] == name && text[|name| + 1..] == arg
  {
    var text := name + "=" + arg;
    assert text[|name|] == '=';
    forall t | 0 <= t < |name| ensures text[t] != '=' { assert text[t] == name[t] && name[t] in name; }
  }

  /** The search finds the option that is named. */
  lemma SearchFinds(longs: seq<LongOption>, name: string, k: Option<nat>)
    requires Names(longs, name, k)
    ensures var m := MatchLong(longs, name, 0, NoMatch);
      if k.Some? then k.value < |longs| && m == Found(k.value) else !m.Found?
  {
    MatchLongAnswers(longs, name, 0, NoMatch);
  }

  predicate IsLong(x: Item) { x.Long? || x.LongGiven? || x.LongNext? }

  function LongText(x: Item): string
    requires IsLong(x)
  {
    if x.LongGiven? then x.name + "=" + x.arg else x.name
  }

  lemma LongStepIs(g: Grammar, a: seq<string>, i: nat, x: Item)
    requires IsLong(x) && Legal(g, x) && i < |a| && (x.LongNext? ==> i + 1 < |a| && a[i + 1] == x.arg)
    ensures LongStep(g, a, i, LongText(x)) == Step(Meaning(g, x)[0], i + |Render(x)|, "") && |Meaning(g, x)| == 1
  {
    NameOf(x.name, if x.Long? then "" else x.arg);
    SearchFinds(g.longs, x.name, if x.LongNext? then Some(x.place) else x.k);
  }

  lemma LongScanned(g: Grammar, a: seq<string>, i: nat, x: Item)
    requires IsLong(x) && Legal(g, x) && LiesAt(a, i, Render(x))
    ensures Parse(g, a, i, "") == Join(Meaning(g, x), Render(x), [], Parse(g, a, i + |Render(x)|, ""))
  {
    var text := LongText(x);
    assert a[i] == a[i..i + |Render(x)|][0] == "--" + text;
    if x.LongNext? { assert a[i + 1] == a[i..i + 2][1]; }
    LongOpens(g, a, i, text);
    LongStepIs(g, a, i, x);
    assert Meaning(g, x) == [Meaning(g, x)[0]];
  }

  lemma ItemScanned(g: Grammar, a: seq<string>, i: nat, x: Item)
    requires Legal(g, x) && LiesAt(a, i, Render(x))
    ensures Parse(g, a, i, "")
      == Join(Meaning(g, x), Written(x).0, Written(x).1, Parse(g, a, i + |Render(x)|, ""))
  {
    if x.Letters? {
      LettersScanned(g, a, i, x);
    } else if x.Other? {
      OtherScanned(g, a, i, x.text);
    } else {
      LongScanned(g, a, i, x);
    }
  }

  // ----- whole command lines -----

  function RenderAll(xs: seq<Item>): seq<string> { if xs == [] then [] else Render(xs[0]) + RenderAll(xs[1..]) }

  function MeaningAll(g: Grammar, xs: seq<Item>): seq<Event> {
    if xs == [] then [] else Meaning(g, xs[0]) + MeaningAll(g, xs[1..])
  }

  function OptionsAll(xs: seq<Item>): seq<string> {
    if xs == [] then [] else Written(xs[0]).0 + OptionsAll(xs[1..])
  }

  function OthersAll(xs: seq<Item>): seq<string> {
    if xs == [] then [] else Written(xs[0]).1 + OthersAll(xs[1..])
  }

  lemma TwoParts(a: seq<string>, i: nat, p: seq<string>, q: seq<string>)
    requires LiesAt(a, i, p + q)
    ensures LiesAt(a, i, p) && LiesAt(a, i + |p|, q)
  {
    var s := a[i..i + |p + q|];
    assert s[..|p|] == p && s[|p|..] == q;
    assert a[i..i + |p|] == s[..|p|] && a[i + |p|..i + |p| + |q|] == s[|p|..];
  }

  /** One item after the other, where f(i) is the meaning of the elements from i on. */
  predicate Chained(g: Grammar, f: nat -> Parsed, i: nat, xs: seq<Item>)
    decreases |xs|
  {
    xs != [] ==>
      var next := i + |Render(xs[0])|;
      f(i) == Join(Meaning(g, xs[0]), Written(xs[0]).0, Written(xs[0]).1, f(next)) && Chained(g, f, next, xs[1..])
  }

  lemma {:induction false} ChainJoins(g: Grammar, f: nat -> Parsed, i: nat, xs: seq<Item>)
    requires Chained(g, f, i, xs)
    ensures f(i) == Join(MeaningAll(g, xs), OptionsAll(xs), OthersAll(xs), f(i + |RenderAll(xs)|))
    decreases |xs|
  {
    if xs == [] {
      NothingJoined(f(i));
    } else {
      var (x, rest, next) := (xs[0], xs[1..], i + |Render(xs[0])|);
      ChainJoins(g, f, next, rest);
      JoinJoin(Meaning(g, x), Written(x).0, Written(x).1, MeaningAll(g, rest), OptionsAll(rest), OthersAll(rest),
               f(next + |RenderAll(rest)|));
    }
  }

  function From(g: Grammar, a: seq<string>): nat -> Parsed {
    (i: nat) => if i <= |a| then Parse(g, a, i, "") else Parsed([], [], [], i)
  }

  ghost predicate ReadsItem(g: Grammar, a: seq<string>, f: nat -> Parsed, i: nat, x: Item) {
    Legal(g, x) && LiesAt(a, i, Render(x)) ==>
      f(i) == Join(Meaning(g, x), Written(x).0, Written(x).1, f(i + |Render(x)|))
  }

  ghost predicate ReadsItems(g: Grammar, a: seq<string>, f: nat -> Parsed) {
    forall i: nat, x: Item :: ReadsItem(g, a, f, i, x)
  }

  lemma {:induction false} ItemsChain(g: Grammar, a: seq<string>, f: nat -> Parsed, i: nat, xs: seq<Item>)
    requires ReadsItems(g, a, f)
    requires (forall t | 0 <= t < |xs| :: Legal(g, xs[t])) && LiesAt(a, i, RenderAll(xs))
    ensures Chained(g, f, i, xs)
    decreases |xs|
  {
    if xs != [] {
      TwoParts(a, i, Render(xs[0]), RenderAll(xs[1..]));
      assert ReadsItem(g, a, f, i, xs[0]);
      ItemsChain(g, a, f, i + |Render(xs[0])|, xs[1..]);
    }
  }

  lemma FromReads(g: Grammar, a: seq<string>)
    ensures ReadsItems(g, a, From(g, a))
  {
    forall i: nat, x: Item ensures ReadsItem(g, a, From(g, a), i, x) {
      if Legal(g, x) && LiesAt(a, i, Render(x)) { ItemScanned(g, a, i, x); }
    }
  }

  lemma ItemsScanned(g: Grammar, a: seq<string>, i: nat, xs: seq<Item>)
    requires (forall t | 0 <= t < |xs| :: Legal(g, xs[t])) && LiesAt(a, i, RenderAll(xs))
    ensures Parse(g, a, i, "")
      == Join(MeaningAll(g, xs), OptionsAll(xs), OthersAll(xs), Parse(g, a, i + |RenderAll(xs)|, ""))
  {
    FromReads(g, a);
    ItemsChain(g, a, From(g, a), i, xs);
    ChainEnds(g, From(g, a), i, xs, Parse(g, a, i, ""), Parse(g, a, i + |RenderAll(xs)|, ""));
  }

  lemma ChainEnds(g: Grammar, f: nat -> Parsed, i: nat, xs: seq<Item>, p: Parsed, q: Parsed)
    requires Chained(g, f, i, xs) && p == f(i) && q == f(i + |RenderAll(xs)|)
    ensures p == Join(MeaningAll(g, xs), OptionsAll(xs), OthersAll(xs), q)
  {
    ChainJoins(g, f, i, xs);
  }

  /** A command line is scanned as it was meant: every report in its order, the options with
      their arguments, the other arguments; and the scan stops at its end. */
  lemma LineScanned(g: Grammar, prog: string, xs: seq<Item>)
    requires forall t | 0 <= t < |xs| :: Legal(g, xs[t])
    ensures var a := [prog] + RenderAll(xs);
      Parse(g, a, 1, "") == Parsed(MeaningAll(g, xs), OptionsAll(xs), OthersAll(xs), |a|)
  {
    var a := [prog] + RenderAll(xs);
    assert a[1..1 + |RenderAll(xs)|] == RenderAll(xs);
    ItemsScanned(g, a, 1, xs);
    JoinEnd(MeaningAll(g, xs), OptionsAll(xs), OthersAll(xs), |a|);
  }

  lemma JoinEnd(e: seq<Event>, o: seq<string>, n: seq<string>, stop: nat)
    ensures Join(e, o, n, Parsed([], [], [], stop)) == Parsed(e, o, n, stop)
  {
    assert e + [] == e && o + [] == o && n + [] == n;
  }

  /** Two dashes: what follows is not looked at. */
  lemma DashesScanned(g: Grammar, prog: string, xs: seq<Item>, rest: seq<string>)
    requires forall t | 0 <= t < |xs| :: Legal(g, xs[t])
    ensures var a := [prog] + (RenderAll(xs) + (["--"] + rest));
      Parse(g, a, 1, "") == Parsed(MeaningAll(g, xs), OptionsAll(xs) + ["--"], OthersAll(xs), 2 + |RenderAll(xs)|)
  {
    var (a, n) := ([prog] + (RenderAll(xs) + (["--"] + rest)), |RenderAll(xs)|);
    assert a[1..1 + n] == RenderAll(xs) && a[1 + n] == "--";
    ItemsScanned(g, a, 1, xs);
    DashesEnd(g, a, 1 + n, MeaningAll(g, xs), OptionsAll(xs), OthersAll(xs));
  }

  lemma LastElement(prog: string, xs: seq<Item>, last: string)
    ensures var (a, n) := ([prog] + (RenderAll(xs) + [last]), |RenderAll(xs)|);
      LiesAt(a, 1, RenderAll(xs)) && |a| == n + 2 && a[1 + n] == last
  {
    var a := [prog] + (RenderAll(xs) + [last]);
    assert a[1..1 + |RenderAll(xs)|] == RenderAll(xs);
  }

  /** A letter that wants an argument at the end of the line. */
  lemma ArgumentMissing(g: Grammar, prog: string, xs: seq<Item>, ls: string, c: char, a: seq<string>)
    requires (forall t | 0 <= t < |xs| :: Legal(g, xs[t])) && ArgumentFor(g.options, c) && (ls + [c])[0] != '-'
    requires forall t | 0 <= t < |ls| :: NoArgumentFor(g.options, ls[t]) || Undeclared(g.options, ls[t])
    requires a == [prog] + (RenderAll(xs) + ["-" + (ls + [c])])
    ensures Parse(g, a, 1, "").events == MeaningAll(g, xs) + (LetterEvents(g.options, ls) + [Missing(g.options)])
  {
    var n := |RenderAll(xs)|;
    LastElement(prog, xs, "-" + (ls + [c]));
    ItemsScanned(g, a, 1, xs);
    GroupOpens(g, a, 1 + n, ls + [c]);
    LettersFirst(g, a, 1 + n, ls, [c]);
    LetterLacks(g, a, 1 + n, c);
  }

  lemma LetterLacks(g: Grammar, a: seq<string>, i: nat, c: char)
    requires ArgumentFor(g.options, c) && |a| == i + 1
    ensures Parse(g, a, i, [c]).events == [Missing(g.options)]
  {
    KindIs(g.options, c);
    assert [c][1..] == "";
  }

  /** The same for a long option. */
  lemma LongArgumentMissing(g: Grammar, prog: string, xs: seq<Item>, name: string, k: nat, a: seq<string>)
    requires (forall t | 0 <= t < |xs| :: Legal(g, xs[t])) && Names(g.longs, name, Some(k))
    requires k < |g.longs| && g.longs[k].hasArg == RequiredArgument && a == [prog] + (RenderAll(xs) + ["--" + name])
    ensures Parse(g, a, 1, "").events == MeaningAll(g, xs) + [Missing(g.options)]
  {
    var n := |RenderAll(xs)|;
    LastElement(prog, xs, "--" + name);
    ItemsScanned(g, a, 1, xs);
    LongLacks(g, a, 1 + n, name, k);
  }

  lemma LongLacks(g: Grammar, a: seq<string>, i: nat, name: string, k: nat)
    requires Names(g.longs, name, Some(k)) && k < |g.longs| && g.longs[k].hasArg == RequiredArgument
    requires |a| == i + 1 && a[i] == "--" + name
    ensures Parse(g, a, i, "").events == [Missing(g.options)]
  {
    LongOpens(g, a, i, name);
    NameOf(name, "");
    SearchFinds(g.longs, name, Some(k));
  }

  /** Calling getopt_long until it returns -1 on a command line reports just what was meant, and
      leaves the options with their arguments in front of the others. */
  method ScanLine(sc: Scanner, ghost prog: string, ghost xs: seq<Item>) returns (reports: seq<Event>)
    requires sc.Valid() && sc.events == [] && sc.orig == [prog] + RenderAll(xs)
    requires forall t | 0 <= t < |xs| :: Legal(sc.g, xs[t])
    modifies sc, sc.args
    ensures reports == MeaningAll(sc.g, xs)
    ensures sc.args[..] == [prog] + OptionsAll(xs) + OthersAll(xs) && sc.optind == 1 + |OptionsAll(xs)|
  {
    LineScanned(sc.g, prog, xs);
    reports := sc.ScanAll();
    assert sc.orig[|sc.orig|..] == [] && sc.args[..] + [] == sc.args[..];
  }
}
