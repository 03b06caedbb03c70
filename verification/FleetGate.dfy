/** The gate a rewritten manifest must pass before it is written (scripts/set-fleet-model.py:236-354). */
module FleetGate {
  import opened Wrappers
  import opened Lines
  import opened FleetRewriter
  import opened FleetRewriterLaws

  /** A YAML scalar: a string, or anything else by its canonical text. */
  datatype Scalar = Str(text: string) | NonStr(text: string)

  datatype Yaml = Leaf(value: Scalar) | List(items: seq<Yaml>) | Map(entries: map<Scalar, Yaml>)

  const FALLBACKS := Str("fallbacks")

  function ChainNode(chain: seq<string>): Yaml {
    List(seq(|chain|, i requires 0 <= i < |chain| => Leaf(Str(chain[i]))))
  }

  function Normalise(node: Yaml, chain: seq<string>): (r: Yaml)
    ensures r.Leaf? <==> node.Leaf?
    ensures r.List? <==> node.List?
  {
    match node
    case Leaf(_) => node
    case List(items) => List(seq(|items|, i requires 0 <= i < |items| => Normalise(items[i], chain)))
    case Map(entries) =>
      Map(map key | key in entries :: if key == FALLBACKS then ChainNode(chain) else Normalise(entries[key], chain))
  }

  /** `walk` finds nothing to complain about: every `fallbacks` value is the chain. */
  predicate Took(node: Yaml, chain: seq<string>) {
    match node
    case Leaf(_) => true
    case List(items) => forall i | 0 <= i < |items| :: Took(items[i], chain)
    case Map(entries) =>
      forall key | key in entries :: (key == FALLBACKS ==> entries[key] == ChainNode(chain)) && Took(entries[key], chain)
  }

  datatype Verdict = Accepted | InvalidYaml | DidNotTake | TouchedOther

  function Verify(original: string, updated: string, chain: seq<string>, parse: string -> Option<Yaml>): Verdict {
    match (parse(original), parse(updated))
    case (None, _) => Accepted
    case (Some(_), None) => InvalidYaml
    case (Some(before), Some(after)) =>
      if !Took(after, chain) then DidNotTake
      else if Normalise(before, chain) != Normalise(after, chain) then TouchedOther
      else Accepted
  }

  lemma ChainTook(chain: seq<string>)
    ensures Took(ChainNode(chain), chain)
  {
  }

  lemma {:induction false} NormalisedTook(node: Yaml, chain: seq<string>)
    ensures Took(Normalise(node, chain), chain)
  {
    ChainTook(chain);
    match node {
      case Leaf(_) =>
      case List(items) =>
        forall i | 0 <= i < |items| ensures Took(Normalise(items[i], chain), chain) {
          NormalisedTook(items[i], chain);
        }
      case Map(entries) =>
        forall key | key in entries ensures Took(Normalise(entries[key], chain), chain) {
          NormalisedTook(entries[key], chain);
        }
    }
  }

  lemma {:induction false} TookIsFixed(node: Yaml, chain: seq<string>)
    requires Took(node, chain)
    ensures Normalise(node, chain) == node
  {
    match node {
      case Leaf(_) =>
      case List(items) =>
        forall i | 0 <= i < |items| ensures Normalise(items[i], chain) == items[i] {
          TookIsFixed(items[i], chain);
        }
        assert Normalise(node, chain).items == items;
      case Map(entries) =>
        forall key | key in entries ensures Normalise(entries[key], chain) == entries[key] {
          TookIsFixed(entries[key], chain);
        }
        assert Normalise(node, chain).entries == entries;
    }
  }

  lemma NormaliseTwice(node: Yaml, chain: seq<string>)
    ensures Normalise(Normalise(node, chain), chain) == Normalise(node, chain)
  {
    NormalisedTook(node, chain);
    TookIsFixed(Normalise(node, chain), chain);
  }

  /** Where the original parses, exactly one document is accepted: the original with every `fallbacks` value
    * replaced.
    */
  lemma GateExactly(original: string, updated: string, chain: seq<string>, parse: string -> Option<Yaml>)
    requires parse(original).Some?
    ensures Verify(original, updated, chain, parse) == Accepted
            <==> parse(updated) == Some(Normalise(parse(original).value, chain))
  {
    var before := parse(original).value;
    NormalisedTook(before, chain);
    NormaliseTwice(before, chain);
    if parse(updated).Some? && Took(parse(updated).value, chain) {
      TookIsFixed(parse(updated).value, chain);
    }
  }

  // ----- What normalising means, path by path -----

  datatype Step = Into(key: Scalar) | Nth(index: nat)

  function At(node: Yaml, path: seq<Step>): Option<Yaml> {
    if path == [] then Some(node) else
      match (node, path[0])
      case (List(items), Nth(i)) => if i < |items| then At(items[i], path[1..]) else None
      case (Map(entries), Into(key)) => if key in entries then At(entries[key], path[1..]) else None
      case _ => None
  }

  /** What a node is, leaving out what is below it. */
  datatype Shape = Value(value: Scalar) | Length(n: nat) | Keys(keys: set<Scalar>) | Missing

  function ShapeAt(node: Yaml, path: seq<Step>): Shape {
    match At(node, path)
    case None => Missing
    case Some(Leaf(value)) => Value(value)
    case Some(List(items)) => Length(|items|)
    case Some(Map(entries)) => Keys(entries.Keys)
  }

  predicate Avoids(path: seq<Step>) {
    Into(FALLBACKS) !in path
  }

  /** Off the `fallbacks` keys the two documents have the same nodes, and each `fallbacks` key has the chain. */
  ghost predicate OnlyChainsDiffer(before: Yaml, after: Yaml, chain: seq<string>) {
    forall path | Avoids(path) :: AgreeAt(before, after, chain, path)
  }

  ghost predicate AgreeAt(before: Yaml, after: Yaml, chain: seq<string>, path: seq<Step>) {
    && ShapeAt(before, path) == ShapeAt(after, path)
    && (ShapeAt(before, path).Keys? && FALLBACKS in ShapeAt(before, path).keys ==>
          At(after, path + [Into(FALLBACKS)]) == Some(ChainNode(chain)))
  }

  lemma {:induction false} NormalisedAgrees(node: Yaml, chain: seq<string>, path: seq<Step>)
    requires Avoids(path)
    ensures AgreeAt(node, Normalise(node, chain), chain, path)
  {
    var after := Normalise(node, chain);
    if path == [] {
      assert (path + [Into(FALLBACKS)])[1..] == [];
      assert node.Map? ==> after.entries.Keys == node.entries.Keys;
    } else {
      var rest := path[1..];
      assert (path + [Into(FALLBACKS)])[1..] == rest + [Into(FALLBACKS)] && path[0] in path;
      match (node, path[0]) {
        case (List(items), Nth(i)) =>
          if i < |items| {
            NormalisedAgrees(items[i], chain, rest);
          }
        case (Map(entries), Into(key)) =>
          if key in entries {
            NormalisedAgrees(entries[key], chain, rest);
          }
        case _ =>
      }
    }
  }

  /** Agreement goes down to the nodes below. */
  lemma AgreesBelow(before: Yaml, after: Yaml, chain: seq<string>, step: Step)
    requires OnlyChainsDiffer(before, after, chain) && step != Into(FALLBACKS)
    requires At(before, [step]).Some? && At(after, [step]).Some?
    ensures OnlyChainsDiffer(At(before, [step]).value, At(after, [step]).value, chain)
  {
    var b, a := At(before, [step]).value, At(after, [step]).value;
    forall path | Avoids(path) ensures AgreeAt(b, a, chain, path) {
      assert ([step] + path)[1..] == path;
      assert ([step] + path + [Into(FALLBACKS)])[1..] == path + [Into(FALLBACKS)];
      assert Avoids([step] + path);
      assert AgreeAt(before, after, chain, [step] + path);
    }
  }

  lemma {:induction false} AgreementIsNormal(before: Yaml, after: Yaml, chain: seq<string>)
    requires OnlyChainsDiffer(before, after, chain)
    ensures after == Normalise(before, chain)
  {
    assert AgreeAt(before, after, chain, []);
    match (before, after) {
      case (List(items), List(others)) =>
        forall i | 0 <= i < |items| ensures others[i] == Normalise(items[i], chain) {
          AgreesBelow(before, after, chain, Nth(i));
          AgreementIsNormal(items[i], others[i], chain);
        }
        assert others == Normalise(before, chain).items;
      case (Map(entries), Map(others)) =>
        assert entries.Keys == others.Keys;
        forall key | key in entries ensures others[key] == Normalise(before, chain).entries[key] {
          if key == FALLBACKS {
            assert At(after, [Into(FALLBACKS)]) == Some(others[key]);
            assert [] + [Into(FALLBACKS)] == [Into(FALLBACKS)];
          } else {
            AgreesBelow(before, after, chain, Into(key));
            AgreementIsNormal(entries[key], others[key], chain);
          }
        }
        assert others == Normalise(before, chain).entries;
      case _ =>
    }
  }

  /** Where the original parses, an update is accepted exactly when it parses, every `fallbacks` key that can be
    * reached from outside another one carries the chain, and nothing off those keys is different.
    */
  lemma AcceptedMeans(original: string, updated: string, chain: seq<string>, parse: string -> Option<Yaml>)
    requires parse(original).Some?
    ensures Verify(original, updated, chain, parse) == Accepted
            <==> parse(updated).Some? && OnlyChainsDiffer(parse(original).value, parse(updated).value, chain)
  {
    GateExactly(original, updated, chain, parse);
    var before := parse(original).value;
    if parse(updated) == Some(Normalise(before, chain)) {
      forall path | Avoids(path) ensures AgreeAt(before, Normalise(before, chain), chain, path) {
        NormalisedAgrees(before, chain, path);
      }
    } else if parse(updated).Some? && OnlyChainsDiffer(before, parse(updated).value, chain) {
      AgreementIsNormal(before, parse(updated).value, chain);
    }
  }

  /** The gate looks for the key that the line rewriter edits. */
  lemma SameKey()
    ensures FALLBACKS.Str? && FALLBACKS.text == "fallbacks" && KEY == FALLBACKS.text + ":"
  {
  }

  // ----- One manifest -----

  datatype FileResult =
    | OnlyProse
    | NoKey
    | LeftByHand(count: int)
    | AlreadyCorrect
    | Skipped(verdict: Verdict)
    | Rewrote

  /** The two results that count as applied. */
  ghost predicate Applied(r: FileResult) {
    r == AlreadyCorrect || r == Rewrote
  }

  function Assess(text: string, chain: seq<string>, parse: string -> Option<Yaml>): FileResult {
    Judged(
      TallyOf(SplitLines(text)), Changed(SplitLines(text), chain), Verify(text, FirstPass(text, chain), chain, parse))
  }

  /** What is made of the counts, of a change, and of the check on it. */
  function Judged(tally: Tally, changed: bool, verdict: Verdict): FileResult {
    if tally.keys == 0 then if tally.prose != 0 then OnlyProse else NoKey
    else if tally.unhandled != 0 then LeftByHand(tally.unhandled)
    else if !changed then AlreadyCorrect
    else if verdict == Accepted then Rewrote
    else Skipped(verdict)
  }

  class Manifest {
    var text: string

    constructor (text: string)
      ensures this.text == text
    {
      this.text := text;
    }

    method RewriteFallbacks(chain: seq<string>, apply: bool, parse: string -> Option<Yaml>) returns (result: FileResult)
      modifies this
      ensures result == Assess(old(text), chain, parse)
      ensures text == if apply && result == Rewrote then FirstPass(old(text), chain) else old(text)
    {
      var rewrite := RewriteFallbacksText(text, chain);
      var tally := rewrite.tally;
      if tally.keys == 0 {
        result := if tally.prose != 0 then OnlyProse else NoKey;
      } else if tally.unhandled != 0 {
        result := LeftByHand(tally.unhandled);
      } else if rewrite.text.None? {
        result := AlreadyCorrect;
      } else {
        var verdict := Verify(text, rewrite.text.value, chain, parse);
        if verdict != Accepted {
          return Skipped(verdict);
        }
        if apply {
          text := rewrite.text.value;
        }
        result := Rewrote;
      }
    }
  }

  /** A manifest that counts as applied carries the chain at every key, there is at least one, and none was left
    * in a style the rewriter does not handle. If it was rewritten and parsed before, nothing else in the
    * document is different.
    */
  lemma AppliedCarriesTheChain(text: string, chain: seq<string>, parse: string -> Option<Yaml>)
    requires Whole(text) && Usable(chain) && Applied(Assess(text, chain, parse))
    ensures var carried := Chains(SplitLines(FirstPass(text, chain)));
            |carried| == TallyOf(SplitLines(text)).keys > 0 && forall c | c in carried :: c == Some(chain)
    ensures Assess(text, chain, parse) == Rewrote && parse(text).Some? ==>
              var after := parse(FirstPass(text, chain));
              after.Some? && Took(after.value, chain) && OnlyChainsDiffer(parse(text).value, after.value, chain)
  {
    AppliedCounts(text, chain, parse);
    EveryKeyCarriesTheChain(text, chain);
    RewrittenTook(text, chain, parse);
  }

  lemma RewrittenTook(text: string, chain: seq<string>, parse: string -> Option<Yaml>)
    ensures Assess(text, chain, parse) == Rewrote && parse(text).Some? ==>
              var after := parse(FirstPass(text, chain));
              after.Some? && Took(after.value, chain) && OnlyChainsDiffer(parse(text).value, after.value, chain)
  {
    if Assess(text, chain, parse) == Rewrote && parse(text).Some? {
      CorrectExactly(text, chain, parse);
      AcceptedTook(text, FirstPass(text, chain), chain, parse);
    }
  }

  lemma AppliedCounts(text: string, chain: seq<string>, parse: string -> Option<Yaml>)
    requires Applied(Assess(text, chain, parse))
    ensures TallyOf(SplitLines(text)).keys > 0 && TallyOf(SplitLines(text)).unhandled == 0
    ensures Assess(text, chain, parse) == Rewrote ==> Verify(text, FirstPass(text, chain), chain, parse) == Accepted
  {
    TalliesAreCounts(SplitLines(text));
    CorrectExactly(text, chain, parse);
  }

  lemma AcceptedTook(original: string, updated: string, chain: seq<string>, parse: string -> Option<Yaml>)
    requires parse(original).Some? && Verify(original, updated, chain, parse) == Accepted
    ensures parse(updated).Some? && Took(parse(updated).value, chain)
    ensures OnlyChainsDiffer(parse(original).value, parse(updated).value, chain)
  {
    AcceptedMeans(original, updated, chain, parse);
    GateExactly(original, updated, chain, parse);
    NormalisedTook(parse(original).value, chain);
  }

  lemma {:induction false} TalliesAreCounts(lines: seq<string>)
    ensures 0 <= TallyOf(lines).unhandled <= TallyOf(lines).keys && 0 <= TallyOf(lines).prose
  {
    if lines != [] {
      TalliesAreCounts(lines[ChunkLength(lines)..]);
    }
  }

  /** Running the tool on a manifest it has just written finds it correct and does not write it again, exactly if no
    * comment holds a line break.
    */
  lemma SecondRunIsIdle(text: string, chain: seq<string>, parse: string -> Option<Yaml>)
    requires Whole(text) && Usable(chain) && Applied(Assess(text, chain, parse))
    ensures Assess(FirstPass(text, chain), chain, parse) == AlreadyCorrect <==> CleanNotes(SplitLines(text))
  {
    FixpointExactly(text, chain);
    RewriteKeepsTheRest(text, chain);
    CorrectExactly(text, chain, parse);
    CorrectExactly(FirstPass(text, chain), chain, parse);
  }

  lemma CorrectExactly(text: string, chain: seq<string>, parse: string -> Option<Yaml>)
    ensures Assess(text, chain, parse) == AlreadyCorrect <==>
            && TallyOf(SplitLines(text)).keys != 0 && TallyOf(SplitLines(text)).unhandled == 0
            && !Changed(SplitLines(text), chain)
    ensures Applied(Assess(text, chain, parse)) ==>
              TallyOf(SplitLines(text)).keys != 0 && TallyOf(SplitLines(text)).unhandled == 0
    ensures Assess(text, chain, parse) == Rewrote ==> Verify(text, FirstPass(text, chain), chain, parse) == Accepted
  {
    JudgedCorrect(
      TallyOf(SplitLines(text)), Changed(SplitLines(text), chain), Verify(text, FirstPass(text, chain), chain, parse));
  }

  lemma JudgedCorrect(tally: Tally, changed: bool, verdict: Verdict)
    ensures Judged(tally, changed, verdict) == AlreadyCorrect <==> tally.keys != 0 && tally.unhandled == 0 && !changed
    ensures Applied(Judged(tally, changed, verdict)) ==> tally.keys != 0 && tally.unhandled == 0
    ensures Judged(tally, changed, verdict) == Rewrote ==> verdict == Accepted
  {
  }
}
