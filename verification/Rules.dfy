/** Routing rules: first specific match, fully wildcard rules held back as fallbacks. */
module Rules {
  import opened Bytes
  import opened Glob
  import opened Addresses

  datatype RuleAction = Proxy | Direct | Block

  datatype Protocol = Tcp | Udp | Both

  /** A filter list: empty or a lone wildcard matches everything, else any of the tokens. */
  datatype Filter<T> = Everything | OneOf(tokens: seq<T>)

  datatype Rule = Rule(
    processes: Filter<string>, hosts: Filter<IpPattern>, ports: Filter<PortPattern>, domains: Filter<string>,
    except: Option<Filter<IpPattern>>, protocol: Protocol, action: RuleAction, proxyId: nat)

  /** The facts of a connection that rules look at. */
  datatype Connection = Connection(process: string, dest: SocketAddr, isUdp: bool, domain: Option<string>)

  datatype RuleMatch = RuleMatch(action: RuleAction, proxyId: nat)

  // ---- Matching one rule ----

  predicate MatchesProtocol(p: Protocol, isUdp: bool) {
    match p
    case Both => true
    case Tcp => !isUdp
    case Udp => isUdp
  }

  predicate EqualFold(a: string, b: string) {
    |a| == |b| && forall i :: 0 <= i < |a| ==> Fold(a[i]) == Fold(b[i])
  }

  predicate EndsInExe(s: string) { |s| >= 4 && EqualFold(s[|s| - 4..], ".exe") }

  function StripExe(s: string): string { if EndsInExe(s) then s[..|s| - 4] else s }

  predicate MatchesProcess(f: Filter<string>, name: string) {
    f.Everything? || exists t :: t in f.tokens && GlobMatches(StripExe(t), StripExe(name))
  }

  predicate MatchesHost(f: Filter<IpPattern>, ip: IpAddr) {
    f.Everything? || exists p :: p in f.tokens && MatchIpPattern(p, ip)
  }

  predicate MatchesPort(f: Filter<PortPattern>, port: nat) {
    f.Everything? || exists p :: p in f.tokens && MatchPortPattern(p, port)
  }

  predicate MatchesDomain(f: Filter<string>, domain: Option<string>) {
    f.Everything? || (domain.Some? && exists t :: t in f.tokens && GlobMatches(t, domain.value))
  }

  predicate MatchesTarget(r: Rule, c: Connection) {
    && !(r.except.Some? && MatchesHost(r.except.value, c.dest.ip))
    && MatchesHost(r.hosts, c.dest.ip)
    && MatchesPort(r.ports, c.dest.port)
    && MatchesDomain(r.domains, c.domain)
  }

  /** No filter but the protocol: held back as a fallback. */
  predicate FullyWildcard(r: Rule) {
    r.processes.Everything? && r.hosts.Everything? && r.ports.Everything? && r.domains.Everything? && r.except.None?
  }

  function AsMatch(r: Rule): RuleMatch { RuleMatch(r.action, r.proxyId) }

  method Evaluate(rules: seq<Rule>, c: Connection) returns (m: RuleMatch)
    ensures m == Outcome(rules, c)
  {
    hide MatchesTarget, First, Select;
    var fallback: Option<Rule> := None;
    EvaluateStart(rules, c);
    for i := 0 to |rules|
      invariant First(Select(rules, false), c) == First(Select(rules[i..], false), c)
      invariant fallback == First(Select(rules[..i], true), c)
    {
      var rule := rules[i];
      EvaluateStep(rules, c, i);
      if !MatchesProtocol(rule.protocol, c.isUdp) {
        continue;
      }
      if rule.processes.Everything? {
        var filtered := !rule.hosts.Everything? || !rule.ports.Everything? || !rule.domains.Everything? || rule.except.Some?;
        if filtered {
          if MatchesTarget(rule, c) {
            return AsMatch(rule);
          }
          continue;
        }
        if fallback.None? {
          fallback := Some(rule);
        }
        continue;
      }
      if MatchesProcess(rule.processes, c.process) && MatchesTarget(rule, c) {
        return AsMatch(rule);
      }
    }
    EvaluateEnd(rules, c);
    if fallback.Some? {
      return AsMatch(fallback.value);
    }
    return RuleMatch(Direct, 0);
  }

  // ---- What evaluation means ----

  predicate Applies(r: Rule, c: Connection) {
    MatchesProtocol(r.protocol, c.isUdp) && MatchesProcess(r.processes, c.process) && MatchesTarget(r, c)
  }

  function First(rules: seq<Rule>, c: Connection): Option<Rule> {
    if rules == [] then None else if Applies(rules[0], c) then Some(rules[0]) else First(rules[1..], c)
  }

  /** The rules of one class, fully wildcard or not, in order. */
  function Select(rules: seq<Rule>, wildcard: bool): seq<Rule> {
    if rules == [] then []
    else if FullyWildcard(rules[0]) == wildcard then [rules[0]] + Select(rules[1..], wildcard)
    else Select(rules[1..], wildcard)
  }

  /** First match over the specific rules, then over the fallbacks, else direct. */
  function Outcome(rules: seq<Rule>, c: Connection): RuleMatch {
    match First(Select(rules, false) + Select(rules, true), c)
    case None => RuleMatch(Direct, 0)
    case Some(r) => AsMatch(r)
  }

  lemma {:induction false} FirstConcat(a: seq<Rule>, b: seq<Rule>, c: Connection)
    ensures First(a + b, c) == if First(a, c).Some? then First(a, c) else First(b, c)
  {
    hide Applies;
    if a == [] {
      assert a + b == b;
    } else {
      FirstConcat(a[1..], b, c);
      assert (a + b)[1..] == a[1..] + b;
    }
  }

  lemma SelectCons(r: Rule, rest: seq<Rule>, wildcard: bool)
    ensures Select([r] + rest, wildcard) == (if FullyWildcard(r) == wildcard then [r] else []) + Select(rest, wildcard)
  {
    hide FullyWildcard;
    assert ([r] + rest)[1..] == rest;
  }

  lemma {:induction false} SelectConcat(a: seq<Rule>, b: seq<Rule>, wildcard: bool)
    ensures Select(a + b, wildcard) == Select(a, wildcard) + Select(b, wildcard)
  {
    hide FullyWildcard, Select;
    if a == [] {
      SelectNone(wildcard);
      assert a + b == b;
    } else {
      var first, rest := a[0], a[1..];
      SelectConcat(rest, b, wildcard);
      assert a == [first] + rest && a + b == [first] + (rest + b);
      SelectCons(first, rest, wildcard);
      SelectCons(first, rest + b, wildcard);
    }
  }

  lemma SelectNone(wildcard: bool)
    ensures Select([], wildcard) == []
  {
  }

  lemma SelectOne(r: Rule, wildcard: bool)
    ensures Select([r], wildcard) == if FullyWildcard(r) == wildcard then [r] else []
  {
    assert [r][1..] == [];
  }

  lemma FullyWildcardApplies(r: Rule, c: Connection)
    requires FullyWildcard(r)
    ensures Applies(r, c) <==> MatchesProtocol(r.protocol, c.isUdp)
  {
  }

  lemma EvaluateStart(rules: seq<Rule>, c: Connection)
    ensures rules[0..] == rules && First(Select(rules[..0], true), c) == None
    ensures Outcome(rules, c) == match First(Select(rules, false), c)
                                 case Some(r) => AsMatch(r)
                                 case None => match First(Select(rules, true), c)
                                              case Some(r) => AsMatch(r)
                                              case None => RuleMatch(Direct, 0)
  {
    hide Applies;
    FirstConcat(Select(rules, false), Select(rules, true), c);
    assert rules[0..] == rules;
  }

  lemma EvaluateStep(rules: seq<Rule>, c: Connection, i: nat)
    requires i < |rules|
    ensures var r, rest, before := rules[i], First(Select(rules[i + 1..], false), c), First(Select(rules[..i], true), c);
            && First(Select(rules[i..], false), c) == (if !FullyWildcard(r) && Applies(r, c) then Some(r) else rest)
            && First(Select(rules[..i + 1], true), c)
               == if before.None? && FullyWildcard(r) && MatchesProtocol(r.protocol, c.isUdp) then Some(r) else before
  {
    hide Applies;
    var r := rules[i];
    assert rules[i..][0] == r && rules[i..][1..] == rules[i + 1..];
    assert rules[..i + 1] == rules[..i] + [r];
    SelectConcat(rules[..i], [r], true);
    SelectOne(r, true);
    FirstConcat(Select(rules[..i], true), Select([r], true), c);
    assert [r][1..] == [];
    if FullyWildcard(r) {
      FullyWildcardApplies(r, c);
    }
  }

  lemma EvaluateEnd(rules: seq<Rule>, c: Connection)
    ensures First(Select(rules[|rules|..], false), c) == None && rules[..|rules|] == rules
  {
  }

  /** The positions of one class of rules, in order. */
  function Positions(rules: seq<Rule>, wildcard: bool): seq<nat> {
    if rules == [] then []
    else
      var n := |rules| - 1;
      Positions(rules[..n], wildcard) + if FullyWildcard(rules[n]) == wildcard then [n] else []
  }

  predicate Increasing(s: seq<nat>) { forall i, j :: 0 <= i < j < |s| ==> s[i] < s[j] }

  lemma {:induction false} PositionsOfClass(rules: seq<Rule>, wildcard: bool)
    ensures Increasing(Positions(rules, wildcard))
    ensures forall i: nat :: i in Positions(rules, wildcard) <==> i < |rules| && FullyWildcard(rules[i]) == wildcard
  {
    hide FullyWildcard;
    if rules != [] {
      var n := |rules| - 1;
      PositionsOfClass(rules[..n], wildcard);
      var before := Positions(rules[..n], wildcard);
      assert forall k :: 0 <= k < |before| ==> before[k] in before;
    }
  }

  lemma {:induction false} SelectIsByPosition(rules: seq<Rule>, wildcard: bool)
    ensures |Select(rules, wildcard)| == |Positions(rules, wildcard)|
    ensures forall k :: 0 <= k < |Positions(rules, wildcard)| ==>
              Positions(rules, wildcard)[k] < |rules|
              && Select(rules, wildcard)[k] == rules[Positions(rules, wildcard)[k]]
  {
    hide FullyWildcard, Select;
    if rules == [] {
      SelectNone(wildcard);
    } else {
      var n := |rules| - 1;
      SelectIsByPosition(rules[..n], wildcard);
      assert rules == rules[..n] + [rules[n]];
      SelectConcat(rules[..n], [rules[n]], wildcard);
      SelectOne(rules[n], wildcard);
    }
  }

  lemma {:induction false} IncreasingIsDetermined(a: seq<nat>, b: seq<nat>)
    requires Increasing(a) && Increasing(b) && forall i: nat :: i in a <==> i in b
    ensures a == b
  {
    assert a != [] ==> a[0] in b;
    assert b != [] ==> b[0] in a;
    if a != [] {
      var m, n := |a| - 1, |b| - 1;
      assert a[m] in b && b[n] in a;
      assert a[m] == b[n];
      forall i: nat ensures i in a[..m] <==> i in b[..n] {
        assert i in a[..m] <==> i in a && i != a[m];
        assert i in b[..n] <==> i in b && i != b[n];
      }
      IncreasingIsDetermined(a[..m], b[..n]);
      assert a == a[..m] + [a[m]] && b == b[..n] + [b[n]];
    }
  }

  /** `moved[j]` is where the rule now at `j` stood: every rule is still there, and inside each class the
      order is the same. */
  predicate KeepsClassOrder(rules: seq<Rule>, reordered: seq<Rule>, moved: seq<nat>) {
    && |moved| == |reordered|
    && (forall j :: 0 <= j < |moved| ==> moved[j] < |rules| && reordered[j] == rules[moved[j]])
    && (forall i :: 0 <= i < |rules| ==> i in moved)
    && forall j, k :: 0 <= j < k < |moved| && FullyWildcard(reordered[j]) == FullyWildcard(reordered[k]) ==>
         moved[j] < moved[k]
  }

  /** Where the rules of a class stood before. */
  function Back(rules: seq<Rule>, reordered: seq<Rule>, moved: seq<nat>, wildcard: bool): (back: seq<nat>)
    requires KeepsClassOrder(rules, reordered, moved)
    ensures |back| == |Positions(reordered, wildcard)|
    ensures forall k :: 0 <= k < |back| ==>
              Positions(reordered, wildcard)[k] < |moved| && back[k] == moved[Positions(reordered, wildcard)[k]]
  {
    SelectIsByPosition(reordered, wildcard);
    var here := Positions(reordered, wildcard);
    seq(|here|, k requires 0 <= k < |here| && here[k] < |moved| => moved[here[k]])
  }

  lemma BackIncreases(rules: seq<Rule>, reordered: seq<Rule>, moved: seq<nat>, wildcard: bool)
    requires KeepsClassOrder(rules, reordered, moved)
    ensures Increasing(Back(rules, reordered, moved, wildcard))
  {
    hide FullyWildcard, Positions, Back;
    PositionsOfClass(reordered, wildcard);
    var here, back := Positions(reordered, wildcard), Back(rules, reordered, moved, wildcard);
    forall i, j | 0 <= i < j < |back| ensures back[i] < back[j] {
      assert here[i] in here && here[j] in here;
    }
  }

  lemma BackHits(rules: seq<Rule>, reordered: seq<Rule>, moved: seq<nat>, wildcard: bool, i: nat)
    requires KeepsClassOrder(rules, reordered, moved)
    ensures i in Back(rules, reordered, moved, wildcard) <==> i in Positions(rules, wildcard)
  {
    hide FullyWildcard, Positions, Back;
    PositionsOfClass(rules, wildcard);
    PositionsOfClass(reordered, wildcard);
    var here, back := Positions(reordered, wildcard), Back(rules, reordered, moved, wildcard);
    if i in Positions(rules, wildcard) {
      assert i in moved;
      var j :| 0 <= j < |moved| && moved[j] == i;
      assert j in here;
      var k :| 0 <= k < |here| && here[k] == j;
      assert back[k] == i;
    }
    if i in back {
      var k :| 0 <= k < |back| && back[k] == i;
      assert here[k] in here && reordered[here[k]] == rules[i];
    }
  }

  lemma ReorderingKeepsClass(rules: seq<Rule>, reordered: seq<Rule>, moved: seq<nat>, wildcard: bool)
    requires KeepsClassOrder(rules, reordered, moved)
    ensures Select(reordered, wildcard) == Select(rules, wildcard)
  {
    hide FullyWildcard, Select, Positions, Back, Increasing;
    var there, here := Positions(rules, wildcard), Positions(reordered, wildcard);
    var back := Back(rules, reordered, moved, wildcard);
    PositionsOfClass(rules, wildcard);
    BackIncreases(rules, reordered, moved, wildcard);
    forall i: nat ensures i in back <==> i in there {
      BackHits(rules, reordered, moved, wildcard, i);
    }
    IncreasingIsDetermined(back, there);
    SelectIsByPosition(rules, wildcard);
    SelectIsByPosition(reordered, wildcard);
    var a, b := Select(reordered, wildcard), Select(rules, wildcard);
    forall k | 0 <= k < |a| ensures a[k] == b[k] {
      assert a[k] == reordered[here[k]] == rules[back[k]];
    }
  }

  /** Any reordering of the rules that keeps the order inside each class leaves every result unchanged. */
  lemma ClassOrderDecides(rules: seq<Rule>, reordered: seq<Rule>, moved: seq<nat>, c: Connection)
    requires KeepsClassOrder(rules, reordered, moved)
    ensures Outcome(reordered, c) == Outcome(rules, c)
  {
    hide KeepsClassOrder, Select, First;
    ReorderingKeepsClass(rules, reordered, moved, false);
    ReorderingKeepsClass(rules, reordered, moved, true);
  }

  /** Moving a fully wildcard rule past a specific one changes no result. */
  lemma WildcardsCommute(before: seq<Rule>, wild: Rule, specific: Rule, after: seq<Rule>, c: Connection)
    requires FullyWildcard(wild) && !FullyWildcard(specific)
    ensures Outcome(before + [wild, specific] + after, c) == Outcome(before + [specific, wild] + after, c)
  {
    hide First, Select, FullyWildcard;
    var one, two := [wild, specific], [specific, wild];
    assert one == [wild] + [specific] && two == [specific] + [wild];
    forall w: bool ensures Select(before + one + after, w) == Select(before + two + after, w) {
      SelectConcat([wild], [specific], w);
      SelectConcat([specific], [wild], w);
      SelectOne(wild, w);
      SelectOne(specific, w);
      SelectConcat(before, one, w);
      SelectConcat(before, two, w);
      SelectConcat(before + one, after, w);
      SelectConcat(before + two, after, w);
    }
  }

  // ---- Domain gating ----

  predicate NeedsDomain(rules: seq<Rule>) { exists i :: 0 <= i < |rules| && !rules[i].domains.Everything? }

  lemma {:induction false} FirstIgnoresDomain(rules: seq<Rule>, c: Connection, domain: Option<string>)
    requires !NeedsDomain(rules)
    ensures First(rules, c.(domain := domain)) == First(rules, c)
    decreases |rules|
  {
    if rules != [] {
      assert forall i :: 0 <= i < |rules[1..]| ==> rules[1..][i] == rules[i + 1];
      FirstIgnoresDomain(rules[1..], c, domain);
      assert Applies(rules[0], c.(domain := domain)) <==> Applies(rules[0], c);
    }
  }

  lemma {:induction false} SelectComesFromRules(rules: seq<Rule>, wildcard: bool)
    ensures forall r :: r in Select(rules, wildcard) ==> r in rules
  {
    hide FullyWildcard;
    if rules != [] {
      SelectComesFromRules(rules[1..], wildcard);
    }
  }

  /** When no rule filters on domains the result does not depend on the domain. */
  lemma OutcomeIgnoresDomain(rules: seq<Rule>, c: Connection, domain: Option<string>)
    requires !NeedsDomain(rules)
    ensures Outcome(rules, c.(domain := domain)) == Outcome(rules, c)
  {
    hide Applies, First, Select;
    SelectComesFromRules(rules, false);
    SelectComesFromRules(rules, true);
    var ordered := Select(rules, false) + Select(rules, true);
    forall i | 0 <= i < |ordered| ensures ordered[i].domains.Everything? {
      assert ordered[i] in rules;
    }
    FirstIgnoresDomain(ordered, c, domain);
  }

  // ---- Executable suffixes ----

  lemma StripExeUndoesSuffix(name: string, suffix: string)
    requires EqualFold(suffix, ".exe")
    ensures StripExe(name + suffix) == name
  {
    var s := name + suffix;
    assert s[|s| - 4..] == suffix && s[..|s| - 4] == name;
  }

  /** A name that does not end in `.exe` is matched the same with the suffix, in any case, added to
      the process or to any token of the rule. */
  lemma ExeSuffixIgnored(tokens: seq<string>, i: nat, name: string, suffix: string)
    requires EqualFold(suffix, ".exe") && i < |tokens| && !EndsInExe(tokens[i]) && !EndsInExe(name)
    ensures MatchesProcess(OneOf(tokens), name + suffix) <==> MatchesProcess(OneOf(tokens), name)
    ensures MatchesProcess(OneOf(tokens[i := tokens[i] + suffix]), name) <==> MatchesProcess(OneOf(tokens), name)
  {
    hide EndsInExe, StripExe, GlobMatches;
    StripExeUndoesSuffix(name, suffix);
    StripExeUndoesSuffix(tokens[i], suffix);
    StripExeKeeps(name);
    StripExeKeeps(tokens[i]);
    var tokens' := tokens[i := tokens[i] + suffix];
    assert forall k :: 0 <= k < |tokens| ==> StripExe(tokens'[k]) == StripExe(tokens[k]);
    assert forall k :: 0 <= k < |tokens| ==> tokens'[k] in tokens' && tokens[k] in tokens;
  }

  lemma StripExeKeeps(s: string)
    requires !EndsInExe(s)
    ensures StripExe(s) == s
  {
  }

  // ---- Rules run on compiled patterns ----

  ghost predicate CompiledMatch(glob: string, text: string) {
    var re := ReadPattern(PREFIX + CompileBody(glob) + "$");
    re.Some? && IsMatch(re.value, text)
  }

  /** Matching a rule by its globs is running the regular expressions it was compiled to. */
  lemma RulesRunCompiledPatterns(f: Filter<string>, name: string, domain: string)
    requires f.OneOf?
    ensures MatchesProcess(f, name) <==> exists t :: t in f.tokens && CompiledMatch(StripExe(t), StripExe(name))
    ensures MatchesDomain(f, Some(domain)) <==> exists t :: t in f.tokens && CompiledMatch(t, domain)
  {
    hide GlobMatches, CompiledMatch, StripExe;
    forall t | t in f.tokens
      ensures CompiledMatch(StripExe(t), StripExe(name)) <==> GlobMatches(StripExe(t), StripExe(name))
      ensures CompiledMatch(t, domain) <==> GlobMatches(t, domain)
    {
      CompiledAgrees(StripExe(t), StripExe(name));
      CompiledAgrees(t, domain);
    }
  }

  lemma CompiledAgrees(glob: string, text: string)
    ensures CompiledMatch(glob, text) <==> GlobMatches(glob, text)
  {
    hide GlobMatches, IsMatch, ReadPattern;
    CompiledGlobMeansGlob(glob, text);
  }
}
