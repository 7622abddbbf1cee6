/** Which instruction files fit the token budget. */
module Instructions {
  import opened Options

  const MAX_FILE_BYTES: nat := 40 * 1024
  const MAX_TOTAL_TOKENS: nat := 12000

  /** What is on disk under a path. */
  datatype File = Missing | Symlink | Unreadable | Undecodable(size: nat) | Text(content: string)

  datatype Candidate = Candidate(priority: nat, path: string, file: File)

  datatype Diagnostic =
    Fine | NotFound | SymlinkRejected | ReadError | TooLarge | InvalidUtf8 | IncludeRejected | OverBudget

  datatype Record = Record(path: string, tokens: nat, priority: nat, loaded: bool, diagnostic: Diagnostic)

  datatype Accepted = Accepted(priority: nat, path: string, content: string, tokens: nat)

  datatype Bundle = Bundle(blocks: seq<(string, string)>, records: seq<Record>)

  function CharBytes(c: char): nat {
    if c as int < 0x80 then 1 else if c as int < 0x800 then 2 else if c as int < 0x1_0000 then 3 else 4
  }

  function Utf8Size(s: string): (n: nat)
    ensures |s| <= n
  {
    if s == "" then 0 else CharBytes(s[0]) + Utf8Size(s[1..])
  }

  function Tokens(content: string): nat {
    var n := (|content| + 3) / 4;
    if n > 1 then n else 1
  }

  /** `_read`; `includes` recognises an include directive. */
  function Read(c: Candidate, includes: string -> bool): (r: (Record, Option<Accepted>))
    ensures r.0.path == c.path && (r.0.loaded <==> r.1.Some?)
    ensures r.1.Some? ==>
      r.1.value.path == c.path && r.1.value.priority == c.priority && 1 <= r.1.value.tokens <= MAX_TOTAL_TOKENS
  {
    match c.file
    case Missing => (Record(c.path, 0, c.priority, false, NotFound), None)
    case Symlink => (Record(c.path, 0, c.priority, false, SymlinkRejected), None)
    case Unreadable => (Record(c.path, 0, c.priority, false, ReadError), None)
    case Undecodable(size) =>
      (Record(c.path, 0, c.priority, false, if size > MAX_FILE_BYTES then TooLarge else InvalidUtf8), None)
    case Text(content) =>
      if Utf8Size(content) > MAX_FILE_BYTES then (Record(c.path, 0, c.priority, false, TooLarge), None)
      else if includes(content) then (Record(c.path, 0, c.priority, false, IncludeRejected), None)
      else
        (Record(c.path, Tokens(content), c.priority, true, Fine),
         Some(Accepted(c.priority, c.path, content, Tokens(content))))
  }

  /** How many characters of a text have at least the given code. */
  function AtLeast(s: string, code: int): nat {
    if s == "" then 0 else (if s[0] as int >= code then 1 else 0) + AtLeast(s[1..], code)
  }

  /** RFC 3629, section 3: a character takes one byte, and one more from each of the three thresholds on. */
  lemma {:induction false} Utf8SizeIs(s: string)
    ensures Utf8Size(s) == |s| + AtLeast(s, 0x80) + AtLeast(s, 0x800) + AtLeast(s, 0x1_0000)
  {
    if s != "" {
      Utf8SizeIs(s[1..]);
    }
  }

  /** A file is accepted, with all of its text, if and only if it is a text of at most 40 KiB without an include
      directive, and costs a token for every four characters begun, at least one. Every other file leaves a record
      that says what is wrong with it. */
  lemma ReadIff(c: Candidate, includes: string -> bool)
    ensures var (record, accepted) := Read(c, includes);
      && record.path == c.path && record.priority == c.priority && record.loaded == accepted.Some?
      && (accepted.Some? <==> c.file.Text? && Utf8Size(c.file.content) <= 40960 && !includes(c.file.content))
      && (accepted.Some? ==>
            var a := accepted.value;
            && a.path == c.path && a.priority == c.priority && a.content == c.file.content
            && a.tokens == record.tokens && record.diagnostic == Fine
            && a.tokens >= 1 && |a.content| <= 4 * a.tokens && (a.tokens > 1 ==> 4 * (a.tokens - 1) < |a.content|))
      && (accepted.None? ==> record.tokens == 0 && record.diagnostic !in {Fine, OverBudget})
      && (record.diagnostic == NotFound <==> c.file.Missing?)
      && (record.diagnostic == SymlinkRejected <==> c.file.Symlink?)
      && (record.diagnostic == ReadError <==> c.file.Unreadable?)
      && (record.diagnostic == TooLarge <==>
            || (c.file.Text? && Utf8Size(c.file.content) > 40960)
            || (c.file.Undecodable? && c.file.size > 40960))
      && (record.diagnostic == InvalidUtf8 <==> c.file.Undecodable? && c.file.size <= 40960)
  {
  }

  /******* The greedy choice *******/

  /** Takes what still fits, in order. */
  function Greedy(tokens: seq<nat>, budget: nat): (picks: seq<bool>)
    ensures |picks| == |tokens|
  {
    if tokens == [] then []
    else if tokens[0] <= budget then [true] + Greedy(tokens[1..], budget - tokens[0])
    else [false] + Greedy(tokens[1..], budget)
  }

  function Cost(tokens: seq<nat>, picks: seq<bool>): nat
    requires |picks| == |tokens|
  {
    if tokens == [] then 0 else (if picks[0] then tokens[0] else 0) + Cost(tokens[1..], picks[1..])
  }

  /** At the first difference, the second choice has the item. */
  ghost predicate Before(a: seq<bool>, b: seq<bool>)
    requires |a| == |b|
  {
    exists i :: 0 <= i < |a| && a[..i] == b[..i] && !a[i] && b[i]
  }

  lemma {:induction false} GreedyFits(tokens: seq<nat>, budget: nat)
    ensures Cost(tokens, Greedy(tokens, budget)) <= budget
  {
    if tokens != [] {
      GreedyFits(tokens[1..], if tokens[0] <= budget then budget - tokens[0] else budget);
    }
  }

  /** The greedy choice is the lexicographically greatest one that fits. */
  lemma {:induction false} GreedyIsGreatest(tokens: seq<nat>, budget: nat, picks: seq<bool>)
    requires |picks| == |tokens| && Cost(tokens, picks) <= budget
    ensures picks == Greedy(tokens, budget) || Before(picks, Greedy(tokens, budget))
  {
    var best := Greedy(tokens, budget);
    if tokens != [] {
      if picks[0] == best[0] {
        GreedyIsGreatest(tokens[1..], if picks[0] then budget - tokens[0] else budget, picks[1..]);
        if picks[1..] == best[1..] {
          assert picks == [picks[0]] + picks[1..];
        } else {
          var i :| 0 <= i < |picks| - 1 && picks[1..][..i] == best[1..][..i] && !picks[1..][i] && best[1..][i];
          assert picks[..i + 1] == [picks[0]] + picks[1..][..i] && best[..i + 1] == [best[0]] + best[1..][..i];
        }
      } else {
        assert picks[..0] == best[..0];
      }
    }
  }

  /******* Stable sorting *******/

  function Key(a: Accepted, reverse: bool): int {
    if reverse then -(a.priority as int) else a.priority
  }

  function Insert(a: Accepted, s: seq<Accepted>, reverse: bool): seq<Accepted> {
    if s == [] || Key(a, reverse) <= Key(s[0], reverse) then [a] + s else [s[0]] + Insert(a, s[1..], reverse)
  }

  /** `sorted` by priority, ascending or in reverse; either way equal priorities keep their order. */
  function Sorted(s: seq<Accepted>, reverse: bool): seq<Accepted> {
    if s == [] then [] else Insert(s[0], Sorted(s[1..], reverse), reverse)
  }

  ghost predicate InOrder(s: seq<Accepted>, reverse: bool) {
    forall i, j | 0 <= i < j < |s| :: Key(s[i], reverse) <= Key(s[j], reverse)
  }

  /** The items of one priority, in order. */
  function OfPriority(s: seq<Accepted>, p: nat): seq<Accepted> {
    if s == [] then [] else (if s[0].priority == p then [s[0]] else []) + OfPriority(s[1..], p)
  }

  lemma {:induction false} InsertElements(a: Accepted, s: seq<Accepted>, reverse: bool)
    ensures multiset(Insert(a, s, reverse)) == multiset(s) + multiset{a}
  {
    if s != [] && Key(a, reverse) > Key(s[0], reverse) {
      InsertElements(a, s[1..], reverse);
      assert s == [s[0]] + s[1..];
    }
  }

  lemma InsertElement(a: Accepted, s: seq<Accepted>, reverse: bool, k: nat)
    requires k < |Insert(a, s, reverse)|
    ensures Insert(a, s, reverse)[k] == a || Insert(a, s, reverse)[k] in s
  {
    InsertElements(a, s, reverse);
    assert Insert(a, s, reverse)[k] in multiset(Insert(a, s, reverse));
  }

  lemma ConsInOrder(a: Accepted, s: seq<Accepted>, reverse: bool)
    requires InOrder(s, reverse) && forall k | 0 <= k < |s| :: Key(a, reverse) <= Key(s[k], reverse)
    ensures InOrder([a] + s, reverse)
  {
  }

  lemma {:induction false} InsertInOrder(a: Accepted, s: seq<Accepted>, reverse: bool)
    requires InOrder(s, reverse)
    ensures InOrder(Insert(a, s, reverse), reverse)
  {
    if s == [] || Key(a, reverse) <= Key(s[0], reverse) {
      ConsInOrder(a, s, reverse);
    } else {
      var rest := Insert(a, s[1..], reverse);
      InsertInOrder(a, s[1..], reverse);
      forall k | 0 <= k < |rest| ensures Key(s[0], reverse) <= Key(rest[k], reverse) {
        InsertElement(a, s[1..], reverse, k);
      }
      ConsInOrder(s[0], rest, reverse);
    }
  }

  lemma PriorityCons(a: Accepted, s: seq<Accepted>, p: nat)
    ensures OfPriority([a] + s, p) == (if a.priority == p then [a] else []) + OfPriority(s, p)
  {
    assert ([a] + s)[1..] == s;
  }

  lemma OneOfTwo(x: seq<Accepted>, y: seq<Accepted>, z: seq<Accepted>)
    requires x == [] || y == []
    ensures x + (y + z) == y + (x + z)
  {
  }

  lemma {:induction false} InsertStable(a: Accepted, s: seq<Accepted>, reverse: bool, p: nat)
    ensures OfPriority(Insert(a, s, reverse), p) == (if a.priority == p then [a] else []) + OfPriority(s, p)
  {
    if s == [] || Key(a, reverse) <= Key(s[0], reverse) {
      PriorityCons(a, s, p);
    } else {
      InsertStable(a, s[1..], reverse, p);
      PriorityCons(s[0], Insert(a, s[1..], reverse), p);
      OneOfTwo(if s[0].priority == p then [s[0]] else [], if a.priority == p then [a] else [], OfPriority(s[1..], p));
    }
  }

  lemma {:induction false} SortedIsStable(s: seq<Accepted>, reverse: bool, p: nat)
    ensures multiset(Sorted(s, reverse)) == multiset(s) && InOrder(Sorted(s, reverse), reverse)
    ensures OfPriority(Sorted(s, reverse), p) == OfPriority(s, p)
  {
    if s != [] {
      SortedIsStable(s[1..], reverse, p);
      InsertElements(s[0], Sorted(s[1..], reverse), reverse);
      InsertInOrder(s[0], Sorted(s[1..], reverse), reverse);
      InsertStable(s[0], Sorted(s[1..], reverse), reverse, p);
      assert s == [s[0]] + s[1..];
    }
  }

  /******* Loading *******/

  function TokensOf(s: seq<Accepted>): (t: seq<nat>)
    ensures |t| == |s| && forall i | 0 <= i < |t| :: t[i] == s[i].tokens
  {
    seq(|s|, i requires 0 <= i < |s| => s[i].tokens)
  }

  /** The accepted files among the candidates, in order. */
  function AcceptedOf(candidates: seq<Candidate>, includes: string -> bool): seq<Accepted> {
    if candidates == [] then []
    else
      var r := Read(candidates[|candidates| - 1], includes).1;
      AcceptedOf(candidates[..|candidates| - 1], includes) + if r.Some? then [r.value] else []
  }

  ghost predicate DistinctPaths(s: seq<Accepted>) {
    forall i, j | 0 <= i < j < |s| :: s[i].path != s[j].path
  }

  /** The paths picked. */
  ghost predicate Picked(order: seq<Accepted>, picks: seq<bool>, path: string)
    requires |picks| == |order|
  {
    exists i :: 0 <= i < |order| && picks[i] && order[i].path == path
  }

  function Blocks(order: seq<Accepted>, selected: set<string>): seq<(string, string)> {
    if order == [] then []
    else
      var last := order[|order| - 1];
      Blocks(order[..|order| - 1], selected) + if last.path in selected then [(last.path, last.content)] else []
  }

  lemma {:induction false} GreedyStep(tokens: seq<nat>, budget: nat, i: nat)
    requires i < |tokens|
    ensures Cost(tokens[..i], Greedy(tokens, budget)[..i]) <= budget
    ensures Greedy(tokens, budget)[i] <==> tokens[i] <= budget - Cost(tokens[..i], Greedy(tokens, budget)[..i])
    ensures Cost(tokens[..i + 1], Greedy(tokens, budget)[..i + 1])
         == Cost(tokens[..i], Greedy(tokens, budget)[..i]) + if Greedy(tokens, budget)[i] then tokens[i] else 0
  {
    var picks := Greedy(tokens, budget);
    if i == 0 {
      assert tokens[..0] == [] && picks[..0] == [];
      assert tokens[..1] == [tokens[0]] && picks[..1] == [picks[0]];
      assert tokens[..1][1..] == [] && picks[..1][1..] == [];
    } else {
      var left := if tokens[0] <= budget then budget - tokens[0] else budget;
      GreedyStep(tokens[1..], left, i - 1);
      assert tokens[..i][1..] == tokens[1..][..i - 1] && picks[..i][1..] == picks[1..][..i - 1];
      assert tokens[..i + 1][1..] == tokens[1..][..i] && picks[..i + 1][1..] == picks[1..][..i];
    }
  }

  /** The files that the budget pays for: greedily, highest priority first. */
  ghost function Selected(accepted: seq<Accepted>): set<string> {
    var order := Sorted(accepted, true);
    var picks := Greedy(TokensOf(order), MAX_TOTAL_TOKENS);
    set i | 0 <= i < |order| && picks[i] :: order[i].path
  }

  /** The loop of `load` that spends the budget. */
  method Select(accepted: seq<Accepted>) returns (selected: set<string>)
    ensures selected == Selected(accepted)
  {
    var order := Sorted(accepted, true);
    ghost var tokens := TokensOf(order);
    ghost var picks := Greedy(tokens, MAX_TOTAL_TOKENS);
    var remaining := MAX_TOTAL_TOKENS;
    selected := {};
    for i := 0 to |order|
      invariant remaining == MAX_TOTAL_TOKENS - Cost(tokens[..i], picks[..i])
      invariant forall path :: path in selected <==> Picked(order[..i], picks[..i], path)
    {
      GreedyStep(tokens, MAX_TOTAL_TOKENS, i);
      PickedMore(order, picks, i);
      if order[i].tokens <= remaining {
        selected := selected + {order[i].path};
        remaining := remaining - order[i].tokens;
      }
    }
    assert order[..|order|] == order && picks[..|order|] == picks;
    assert forall path :: path in selected <==> path in Selected(accepted);
  }

  lemma PickedMore(order: seq<Accepted>, picks: seq<bool>, i: nat)
    requires |picks| == |order| && i < |order|
    ensures forall path :: Picked(order[..i + 1], picks[..i + 1], path) <==>
                           Picked(order[..i], picks[..i], path) || (picks[i] && order[i].path == path)
  {
    forall path
      ensures Picked(order[..i + 1], picks[..i + 1], path) <==>
              Picked(order[..i], picks[..i], path) || (picks[i] && order[i].path == path)
    {
      if picks[i] && order[i].path == path {
        assert picks[..i + 1][i] && order[..i + 1][i].path == path;
      }
      if Picked(order[..i], picks[..i], path) {
        var k :| 0 <= k < i && picks[..i][k] && order[..i][k].path == path;
        assert picks[..i + 1][k] && order[..i + 1][k].path == path;
      }
    }
  }

  /** A record once the budget is spent. */
  function Settled(r: Record, selected: set<string>): Record {
    if r.loaded && r.path !in selected then r.(loaded := false, diagnostic := OverBudget) else r
  }

  /** A record says loaded exactly if its file was accepted and is selected, and over budget if it was only accepted. */
  lemma LoadedIff(c: Candidate, includes: string -> bool, selected: set<string>)
    ensures var (read, accepted) := Read(c, includes);
      var record := Settled(read, selected);
      && (record.loaded <==> accepted.Some? && c.path in selected)
      && (record.diagnostic == OverBudget <==> accepted.Some? && c.path !in selected)
      && record.path == c.path && record.priority == c.priority && record.tokens == read.tokens
      && (accepted.None? ==> record == read)
  {
    ReadIff(c, includes);
  }

  /** `load`. */
  method Load(candidates: seq<Candidate>, includes: string -> bool) returns (bundle: Bundle)
    ensures var accepted := AcceptedOf(candidates, includes);
      && bundle.blocks == Blocks(Sorted(accepted, false), Selected(accepted))
      && |bundle.records| == |candidates|
      && forall i | 0 <= i < |candidates| ::
           bundle.records[i] == Settled(Read(candidates[i], includes).0, Selected(accepted))
  {
    var records: seq<Record> := [];
    var accepted: seq<Accepted> := [];
    for i := 0 to |candidates|
      invariant |records| == i && forall k | 0 <= k < i :: records[k] == Read(candidates[k], includes).0
      invariant accepted == AcceptedOf(candidates[..i], includes)
    {
      var read := Read(candidates[i], includes);
      assert candidates[..i + 1][..i] == candidates[..i];
      records := records + [read.0];
      if read.1.Some? {
        accepted := accepted + [read.1.value];
      }
    }
    assert candidates[..|candidates|] == candidates;
    var selected := Select(accepted);
    var finals: seq<Record> := [];
    for i := 0 to |records|
      invariant |finals| == i && forall k | 0 <= k < i :: finals[k] == Settled(records[k], selected)
    {
      finals := finals + [if records[i].loaded && records[i].path !in selected
                          then records[i].(loaded := false, diagnostic := OverBudget) else records[i]];
    }
    bundle := Bundle(Blocks(Sorted(accepted, false), selected), finals);
  }

  /******* What loading guarantees *******/

  function SelectedTokens(s: seq<Accepted>, selected: set<string>): nat {
    if s == [] then 0 else (if s[0].path in selected then s[0].tokens else 0) + SelectedTokens(s[1..], selected)
  }

  function LoadedTokens(records: seq<Record>): nat {
    if records == [] then 0
    else
      var last := records[|records| - 1];
      LoadedTokens(records[..|records| - 1]) + if last.loaded then last.tokens else 0
  }

  lemma {:induction false} InsertTokens(a: Accepted, s: seq<Accepted>, reverse: bool, selected: set<string>)
    ensures SelectedTokens(Insert(a, s, reverse), selected)
         == SelectedTokens(s, selected) + if a.path in selected then a.tokens else 0
  {
    if s == [] || Key(a, reverse) <= Key(s[0], reverse) {
      assert ([a] + s)[1..] == s;
    } else {
      InsertTokens(a, s[1..], reverse, selected);
      assert ([s[0]] + Insert(a, s[1..], reverse))[1..] == Insert(a, s[1..], reverse);
    }
  }

  lemma {:induction false} SortedTokens(s: seq<Accepted>, reverse: bool, selected: set<string>)
    ensures SelectedTokens(Sorted(s, reverse), selected) == SelectedTokens(s, selected)
  {
    if s != [] {
      SortedTokens(s[1..], reverse, selected);
      InsertTokens(s[0], Sorted(s[1..], reverse), reverse, selected);
    }
  }

  lemma {:induction false} PicksCost(order: seq<Accepted>, picks: seq<bool>, selected: set<string>)
    requires |picks| == |order| && forall i | 0 <= i < |order| :: order[i].path in selected <==> picks[i]
    ensures SelectedTokens(order, selected) == Cost(TokensOf(order), picks)
  {
    if order != [] {
      assert TokensOf(order)[1..] == TokensOf(order[1..]);
      PicksCost(order[1..], picks[1..], selected);
    }
  }

  lemma {:induction false} AppendTokens(s: seq<Accepted>, a: Accepted, selected: set<string>)
    ensures SelectedTokens(s + [a], selected) ==
      SelectedTokens(s, selected) + if a.path in selected then a.tokens else 0
  {
    if s == [] {
      assert SelectedTokens([a][1..], selected) == 0;
    } else {
      AppendTokens(s[1..], a, selected);
      assert (s + [a])[1..] == s[1..] + [a];
    }
  }

  lemma {:induction false} RecordTokens(candidates: seq<Candidate>, includes: string -> bool, selected: set<string>,
                                        records: seq<Record>)
    requires |records| == |candidates|
    requires forall i | 0 <= i < |candidates| :: records[i] == Settled(Read(candidates[i], includes).0, selected)
    ensures LoadedTokens(records) == SelectedTokens(AcceptedOf(candidates, includes), selected)
  {
    if candidates != [] {
      var last := |candidates| - 1;
      RecordTokens(candidates[..last], includes, selected, records[..last]);
      var r := Read(candidates[last], includes);
      if r.1.Some? {
        AppendTokens(AcceptedOf(candidates[..last], includes), r.1.value, selected);
      } else {
        assert AcceptedOf(candidates, includes) == AcceptedOf(candidates[..last], includes);
      }
    }
  }

  lemma {:induction false} SortedDistinct(s: seq<Accepted>, reverse: bool)
    requires DistinctPaths(s)
    ensures DistinctPaths(Sorted(s, reverse))
  {
    if s != [] {
      SortedDistinct(s[1..], reverse);
      var rest := Sorted(s[1..], reverse);
      SortedIsStable(s[1..], reverse, 0);
      forall k | 0 <= k < |rest| ensures rest[k].path != s[0].path {
        assert rest[k] in multiset(rest);
        assert rest[k] in s[1..];
      }
      InsertDistinct(s[0], rest, reverse);
    }
  }

  lemma {:induction false} InsertDistinct(a: Accepted, s: seq<Accepted>, reverse: bool)
    requires DistinctPaths(s) && forall k | 0 <= k < |s| :: s[k].path != a.path
    ensures DistinctPaths(Insert(a, s, reverse))
  {
    if s != [] && Key(a, reverse) > Key(s[0], reverse) {
      InsertDistinct(a, s[1..], reverse);
      var rest := Insert(a, s[1..], reverse);
      forall k | 0 <= k < |rest| ensures rest[k].path != s[0].path {
        InsertElement(a, s[1..], reverse, k);
      }
    }
  }

  /** With distinct paths the files loaded fit the budget, and are the lexicographically greatest choice that
      does, highest priority first. */
  lemma LoadedIsGreatest(accepted: seq<Accepted>)
    requires DistinctPaths(accepted)
    ensures var order := Sorted(accepted, true);
      var picks := Greedy(TokensOf(order), MAX_TOTAL_TOKENS);
      && (forall i | 0 <= i < |order| :: order[i].path in Selected(accepted) <==> picks[i])
      && SelectedTokens(accepted, Selected(accepted)) == Cost(TokensOf(order), picks) <= 12000
      && (forall other: seq<bool> | |other| == |order| && Cost(TokensOf(order), other) <= 12000 ::
            other == picks || Before(other, picks))
  {
    var order := Sorted(accepted, true);
    var picks := Greedy(TokensOf(order), MAX_TOTAL_TOKENS);
    SortedDistinct(accepted, true);
    PicksCost(order, picks, Selected(accepted));
    SortedTokens(accepted, true, Selected(accepted));
    GreedyFits(TokensOf(order), MAX_TOTAL_TOKENS);
    forall other: seq<bool> | |other| == |order| && Cost(TokensOf(order), other) <= MAX_TOTAL_TOKENS
      ensures other == picks || Before(other, picks)
    {
      GreedyIsGreatest(TokensOf(order), MAX_TOTAL_TOKENS, other);
    }
  }

  /** The accepted file of highest priority is always loaded: one file within the size limit fits. */
  lemma TopIsLoaded(candidates: seq<Candidate>, includes: string -> bool)
    requires AcceptedOf(candidates, includes) != []
    ensures var accepted := AcceptedOf(candidates, includes);
      var order := Sorted(accepted, true);
      order != [] && order[0].path in Selected(accepted) && forall a | a in accepted :: a.priority <= order[0].priority
  {
    var accepted := AcceptedOf(candidates, includes);
    var order := Sorted(accepted, true);
    SortedIsStable(accepted, true, 0);
    assert |multiset(order)| == |multiset(accepted)|;
    assert order[0] in multiset(order);
    AcceptedFits(candidates, includes);
    forall a | a in accepted ensures a.priority <= order[0].priority {
      assert a in multiset(accepted);
      var k :| 0 <= k < |order| && order[k] == a;
      assert Key(order[0], true) <= Key(order[k], true);
    }
  }

  lemma {:induction false} AcceptedFits(candidates: seq<Candidate>, includes: string -> bool)
    ensures forall a | a in AcceptedOf(candidates, includes) :: 1 <= a.tokens <= MAX_TOTAL_TOKENS
  {
    if candidates != [] {
      AcceptedFits(candidates[..|candidates| - 1], includes);
    }
  }

  /** The records `load` returns account for no more than the budget. */
  lemma {:induction false} LoadWithinBudget(candidates: seq<Candidate>, includes: string -> bool, records: seq<Record>)
    requires DistinctPaths(AcceptedOf(candidates, includes)) && |records| == |candidates|
    requires forall i | 0 <= i < |candidates| ::
      records[i] == Settled(Read(candidates[i], includes).0, Selected(AcceptedOf(candidates, includes)))
    ensures LoadedTokens(records) <= 12000
  {
    var accepted := AcceptedOf(candidates, includes);
    RecordTokens(candidates, includes, Selected(accepted), records);
    LoadedIsGreatest(accepted);
  }

  /** The accepted files are those of the candidates, in their order. */
  lemma {:induction false} AcceptedAppend(first: seq<Candidate>, second: seq<Candidate>, includes: string -> bool)
    ensures AcceptedOf(first + second, includes) == AcceptedOf(first, includes) + AcceptedOf(second, includes)
  {
    if second == [] {
      assert first + second == first;
    } else {
      var last := |second| - 1;
      AcceptedAppend(first, second[..last], includes);
      assert (first + second)[..|first + second| - 1] == first + second[..last];
    }
  }

  lemma AcceptedOne(c: Candidate, includes: string -> bool)
    ensures AcceptedOf([c], includes) == if Read(c, includes).1.Some? then [Read(c, includes).1.value] else []
  {
    assert AcceptedOf([c][..0], includes) == [];
  }

  /** Where a block comes from: the file before which as many files are selected as blocks come before it. */
  lemma {:induction false} BlockAt(order: seq<Accepted>, selected: set<string>, k: nat) returns (i: nat)
    requires k < |Blocks(order, selected)|
    ensures i < |order| && order[i].path in selected && |Blocks(order[..i], selected)| == k
    ensures Blocks(order, selected)[k] == (order[i].path, order[i].content)
  {
    var last := |order| - 1;
    if k < |Blocks(order[..last], selected)| {
      i := BlockAt(order[..last], selected, k);
      assert order[..last][..i] == order[..i];
    } else {
      i := last;
    }
  }

  lemma {:induction false} BlocksGrow(order: seq<Accepted>, selected: set<string>, i: nat, j: nat)
    requires i <= j <= |order|
    ensures |Blocks(order[..i], selected)| <= |Blocks(order[..j], selected)|
  {
    if i < j {
      BlocksGrow(order, selected, i, j - 1);
      assert order[..j][..j - 1] == order[..j - 1];
    }
  }

  /** The blocks are those of the accepted and selected files in ascending priority. */
  lemma BlocksAscend(accepted: seq<Accepted>, m: nat, n: nat) returns (a: Accepted, b: Accepted)
    requires m < n < |Blocks(Sorted(accepted, false), Selected(accepted))|
    ensures var blocks := Blocks(Sorted(accepted, false), Selected(accepted));
      blocks[m] == (a.path, a.content) && blocks[n] == (b.path, b.content)
    ensures a in accepted && b in accepted && a.priority <= b.priority
  {
    var order, selected := Sorted(accepted, false), Selected(accepted);
    var i := BlockAt(order, selected, m);
    var j := BlockAt(order, selected, n);
    if j < i {
      BlocksGrow(order, selected, j, i);
    }
    SortedIsStable(accepted, false, 0);
    a, b := order[i], order[j];
    assert a in multiset(order) && b in multiset(order);
    assert i != j ==> Key(order[i], false) <= Key(order[j], false);
  }

  lemma {:induction false} BlocksOf(order: seq<Accepted>, selected: set<string>, block: (string, string))
    ensures block in Blocks(order, selected) <==>
      block.0 in selected && exists a :: a in order && a.path == block.0 && a.content == block.1
  {
    if order != [] {
      var last := order[|order| - 1];
      BlocksOf(order[..|order| - 1], selected, block);
      assert order == order[..|order| - 1] + [last];
      if last.path in selected && last.path == block.0 && last.content == block.1 {
        assert block == (last.path, last.content);
      }
    }
  }

  /** The text lists exactly the selected files, each with its own content. */
  lemma TextIsExact(accepted: seq<Accepted>, block: (string, string))
    ensures block in Blocks(Sorted(accepted, false), Selected(accepted)) <==>
      block.0 in Selected(accepted) && exists a :: a in accepted && a.path == block.0 && a.content == block.1
  {
    var order := Sorted(accepted, false);
    BlocksOf(order, Selected(accepted), block);
    SortedIsStable(accepted, false, 0);
    forall a ensures a in order <==> a in accepted {
      assert a in multiset(order) <==> a in multiset(accepted);
    }
  }
}
