/** The upstream-file parser, which fills its tables in nested loops. */
module ConfigParser {
  import opened Basics
  import opened Text
  import opened Wire
  import opened Upstreams
  import opened Config
  import opened ConfigLines

  /** Builds the transport of an upstream address, or says why it cannot. */
  type Build = Builder<Transport>

  /** What the parser has filled in so far. */
  datatype Tables = Tables(
    index: map<string, TrackedUpstream>,
    domains: map<string, seq<TrackedUpstream>>,
    defaults: seq<TrackedUpstream>,
    errors: seq<(nat, string)>)

  /** Every indexed upstream was built from its own address, and has a tracker of its own. */
  ghost predicate IndexOk(build: Build, index: map<string, TrackedUpstream>) {
    && (forall t :: t in index ==>
          build(t).Ok? && index[t].address == t && index[t].transport == build(t).value)
    && forall s, t :: s in index && t in index && s != t ==> index[s].latency != index[t].latency
  }

  predicate AllIndexed(index: map<string, TrackedUpstream>, tokens: seq<string>) {
    forall i :: 0 <= i < |tokens| ==> tokens[i] in index
  }

  /** Looking tokens up in the index. */
  function Via(index: map<string, TrackedUpstream>, tokens: seq<string>): (r: seq<TrackedUpstream>)
    requires AllIndexed(index, tokens)
    ensures |r| == |tokens| && forall i :: 0 <= i < |tokens| ==> r[i] == index[tokens[i]]
  {
    seq(|tokens|, i requires 0 <= i < |tokens| => index[tokens[i]])
  }

  function GroupOf(tb: Tables, dest: Option<string>): seq<TrackedUpstream> {
    match dest
    case None => tb.defaults
    case Some(d) => if d in tb.domains then tb.domains[d] else []
  }

  /** The group of `dest` holds exactly the upstreams of `tokens`. */
  ghost predicate Holds(tb: Tables, dest: Option<string>, tokens: seq<string>) {
    AllIndexed(tb.index, tokens) && GroupOf(tb, dest) == Via(tb.index, tokens)
  }

  ghost predicate NoEmptyGroup(tb: Tables) {
    forall d :: d in tb.domains ==> tb.domains[d] != []
  }

  function Push(domains: map<string, seq<TrackedUpstream>>, d: string, u: TrackedUpstream): map<string, seq<TrackedUpstream>> {
    domains[d := (if d in domains then domains[d] else []) + [u]]
  }

  /** The index grew and every group gained the copies of `u` that its place among `dests` gives it. */
  ghost predicate Delivered(tb: Tables, tb': Tables, u: TrackedUpstream, dests: seq<Option<string>>) {
    forall dest :: GroupOf(tb', dest) == GroupOf(tb, dest) + Copies(u, dests, dest)
  }

  /** Appends `u` to the default group, or to the group of each domain. */
  method Deliver(tb: Tables, u: TrackedUpstream, ds: seq<string>) returns (tb': Tables)
    requires NoEmptyGroup(tb)
    ensures Delivered(tb, tb', u, Destinations(ds)) && NoEmptyGroup(tb')
    ensures tb'.index == tb.index && tb'.errors == tb.errors
  {
    ghost var dests := Destinations(ds);
    if ds == [] {
      tb' := tb.(defaults := tb.defaults + [u]);
      assert forall dest :: Copies(u, dests, dest) == Copies(u, dests[..0], dest) + if dest == None then [u] else [];
      return;
    }
    tb' := tb;
    for k := 0 to |ds|
      invariant tb'.index == tb.index && tb'.errors == tb.errors && NoEmptyGroup(tb')
      invariant Delivered(tb, tb', u, dests[..k])
    {
      PushDelivers(tb, tb', u, dests[..k], ds[k]);
      assert dests[..k + 1] == dests[..k] + [Some(ds[k])];
      tb' := tb'.(domains := Push(tb'.domains, ds[k], u));
    }
    assert dests[..|ds|] == dests;
  }

  lemma PushDelivers(tb: Tables, mid: Tables, u: TrackedUpstream, dests: seq<Option<string>>, d: string)
    requires Delivered(tb, mid, u, dests)
    ensures Delivered(tb, mid.(domains := Push(mid.domains, d, u)), u, dests + [Some(d)])
  {
    var end := mid.(domains := Push(mid.domains, d, u));
    assert (dests + [Some(d)])[..|dests|] == dests;
    forall dest
      ensures GroupOf(end, dest) == GroupOf(tb, dest) + Copies(u, dests + [Some(d)], dest)
    {
      assert GroupOf(mid, dest) == GroupOf(tb, dest) + Copies(u, dests, dest);
      assert GroupOf(end, dest) == GroupOf(mid, dest) + if dest == Some(d) then [u] else [];
    }
  }

  /** Before token `j` of a rule: the groups hold `seen`, and what the rule's first tokens add. */
  ghost predicate Progress(build: Build, lines: seq<Line>, tokens: seq<string>, ds: seq<string>, tb: Tables) {
    && IndexOk(build, tb.index) && NoEmptyGroup(tb)
    && tb.errors == FileErrors(build, lines) + RuleErrors(build, |lines|, tokens)
    && forall dest ::
         Holds(tb, dest, FileTokens(build, lines, dest) + RuleTokens(build, tokens, Destinations(ds), dest))
  }

  lemma {:induction false} ViaCopies(index: map<string, TrackedUpstream>, t: string, dests: seq<Option<string>>, dest: Option<string>)
    requires t in index
    ensures AllIndexed(index, Copies(t, dests, dest))
    ensures Via(index, Copies(t, dests, dest)) == Copies(index[t], dests, dest)
  {
    if dests != [] {
      ViaCopies(index, t, dests[..|dests| - 1], dest);
    }
  }

  lemma ViaAppend(index: map<string, TrackedUpstream>, a: seq<string>, b: seq<string>)
    requires AllIndexed(index, a) && AllIndexed(index, b)
    ensures AllIndexed(index, a + b) && Via(index, a + b) == Via(index, a) + Via(index, b)
  {
  }

  /** Delivering the upstream of a token extends what every group holds by that token. */
  lemma DeliveredHolds(tb: Tables, tb': Tables, t: string, dests: seq<Option<string>>, dest: Option<string>, tokens: seq<string>)
    requires Holds(tb, dest, tokens) && t in tb.index && tb'.index == tb.index
    requires Delivered(tb, tb', tb.index[t], dests)
    ensures Holds(tb', dest, tokens + Copies(t, dests, dest))
  {
    ViaCopies(tb.index, t, dests, dest);
    assert GroupOf(tb', dest) == GroupOf(tb, dest) + Copies(tb.index[t], dests, dest);
    ViaAppend(tb.index, tokens, Copies(t, dests, dest));
  }

  lemma RuleTokensSnoc(build: Build, tokens: seq<string>, t: string, dests: seq<Option<string>>, dest: Option<string>, idx: nat)
    ensures RuleTokens(build, tokens + [t], dests, dest)
         == RuleTokens(build, tokens, dests, dest) + if build(t).Ok? then Copies(t, dests, dest) else []
    ensures RuleErrors(build, idx, tokens + [t])
         == RuleErrors(build, idx, tokens) + if build(t).Ok? then [] else [(idx, build(t).error)]
  {
    assert (tokens + [t])[..|tokens|] == tokens;
  }

  lemma KnownProgress(build: Build, lines: seq<Line>, tokens: seq<string>, tb: Tables, tb': Tables, t: string, ds: seq<string>, dest: Option<string>)
    requires Progress(build, lines, tokens, ds, tb) && t in tb.index && tb'.index == tb.index
    requires Delivered(tb, tb', tb.index[t], Destinations(ds))
    ensures Holds(tb', dest, FileTokens(build, lines, dest) + RuleTokens(build, tokens + [t], Destinations(ds), dest))
  {
    var dests := Destinations(ds);
    var a, b, c := FileTokens(build, lines, dest), RuleTokens(build, tokens, dests, dest), Copies(t, dests, dest);
    assert Holds(tb, dest, a + b);
    DeliveredHolds(tb, tb', t, dests, dest, a + b);
    RuleTokensSnoc(build, tokens, t, dests, dest, |lines|);
    assert build(t).Ok?;
    Associate(a, b, c);
  }

  /** A known upstream is delivered on. */
  method AddKnown(build: Build, ghost lines: seq<Line>, ghost tokens: seq<string>, tb: Tables, t: string, ds: seq<string>)
    returns (tb': Tables)
    requires Progress(build, lines, tokens, ds, tb) && t in tb.index
    ensures Progress(build, lines, tokens + [t], ds, tb') && tb'.index == tb.index
  {
    tb' := Deliver(tb, tb.index[t], ds);
    forall dest
      ensures Holds(tb', dest, FileTokens(build, lines, dest) + RuleTokens(build, tokens + [t], Destinations(ds), dest))
    {
      KnownProgress(build, lines, tokens, tb, tb', t, ds, dest);
    }
    RuleTokensSnoc(build, tokens, t, Destinations(ds), None, |lines|);
    assert RuleErrors(build, |lines|, tokens) + [] == RuleErrors(build, |lines|, tokens);
  }

  /** A token that does not build adds an error and nothing else. */
  lemma RejectedProgress(build: Build, lines: seq<Line>, tokens: seq<string>, tb: Tables, t: string, ds: seq<string>)
    requires Progress(build, lines, tokens, ds, tb) && build(t).Err?
    ensures Progress(build, lines, tokens + [t], ds, tb.(errors := tb.errors + [(|lines|, build(t).error)]))
  {
    var tb' := tb.(errors := tb.errors + [(|lines|, build(t).error)]);
    var dests := Destinations(ds);
    forall dest
      ensures Holds(tb', dest, FileTokens(build, lines, dest) + RuleTokens(build, tokens + [t], dests, dest))
    {
      RuleTokensSnoc(build, tokens, t, dests, dest, |lines|);
      var held := FileTokens(build, lines, dest) + RuleTokens(build, tokens, dests, dest);
      assert RuleTokens(build, tokens, dests, dest) + [] == RuleTokens(build, tokens, dests, dest);
      HoldsStill(tb, tb', dest, held);
    }
    RuleTokensSnoc(build, tokens, t, dests, None, |lines|);
    Associate(FileErrors(build, lines), RuleErrors(build, |lines|, tokens), [(|lines|, build(t).error)]);
  }

  lemma HoldsStill(tb: Tables, tb': Tables, dest: Option<string>, tokens: seq<string>)
    requires Holds(tb, dest, tokens)
    requires tb'.index == tb.index && tb'.domains == tb.domains && tb'.defaults == tb.defaults
    ensures Holds(tb', dest, tokens)
  {
  }

  /** Indexing a new upstream changes no group. */
  lemma IndexedProgress(build: Build, lines: seq<Line>, tokens: seq<string>, tb: Tables, t: string, u: TrackedUpstream, ds: seq<string>)
    requires Progress(build, lines, tokens, ds, tb) && t !in tb.index
    requires build(t).Ok? && u.address == t && u.transport == build(t).value
    requires forall s :: s in tb.index ==> tb.index[s].latency != u.latency
    ensures Progress(build, lines, tokens, ds, tb.(index := tb.index[t := u]))
  {
    var tb' := tb.(index := tb.index[t := u]);
    forall dest
      ensures Holds(tb', dest, FileTokens(build, lines, dest) + RuleTokens(build, tokens, Destinations(ds), dest))
    {
      var held := FileTokens(build, lines, dest) + RuleTokens(build, tokens, Destinations(ds), dest);
      assert Holds(tb, dest, held);
      assert Via(tb'.index, held) == Via(tb.index, held);
    }
  }

  /** One token: reuse the upstream of an equal string, or build it, or report it. */
  method AddToken(build: Build, ghost lines: seq<Line>, ghost tokens: seq<string>, tb: Tables, idx: nat, t: string, ds: seq<string>)
    returns (tb': Tables)
    requires Progress(build, lines, tokens, ds, tb) && idx == |lines|
    ensures Progress(build, lines, tokens + [t], ds, tb')
  {
    if t in tb.index {
      tb' := AddKnown(build, lines, tokens, tb, t, ds);
      return;
    }
    match build(t)
    case Ok(transport) =>
      var u := new TrackedUpstream(t, transport);
      IndexedProgress(build, lines, tokens, tb, t, u, ds);
      tb' := AddKnown(build, lines, tokens, tb.(index := tb.index[t := u]), t, ds);
    case Err(e) =>
      RejectedProgress(build, lines, tokens, tb, t, ds);
      tb' := tb.(errors := tb.errors + [(idx, e)]);
  }

  /** The tables agree with the reading of the first lines. */
  ghost predicate Agrees(build: Build, lines: seq<Line>, tb: Tables) {
    && IndexOk(build, tb.index) && NoEmptyGroup(tb)
    && tb.errors == FileErrors(build, lines)
    && forall dest :: Holds(tb, dest, FileTokens(build, lines, dest))
  }

  lemma RuleStarts(build: Build, lines: seq<Line>, tb: Tables, ds: seq<string>)
    requires Agrees(build, lines, tb)
    ensures Progress(build, lines, [], ds, tb)
  {
    forall dest
      ensures Holds(tb, dest, FileTokens(build, lines, dest) + RuleTokens(build, [], Destinations(ds), dest))
    {
      assert FileTokens(build, lines, dest) + [] == FileTokens(build, lines, dest);
    }
    assert FileErrors(build, lines) + [] == FileErrors(build, lines);
  }

  lemma RuleEnds(build: Build, lines: seq<Line>, line: Line, tb: Tables)
    requires line.Rule? && Progress(build, lines, line.tokens, line.domains, tb)
    ensures Agrees(build, lines + [line], tb)
  {
    assert (lines + [line])[..|lines|] == lines;
    forall dest
      ensures Holds(tb, dest, FileTokens(build, lines + [line], dest))
    {
      assert FileTokens(build, lines + [line], dest) == FileTokens(build, lines, dest) + LineTokens(build, line, dest);
    }
  }

  lemma OtherLineEnds(build: Build, lines: seq<Line>, line: Line, tb: Tables)
    requires !line.Rule? && Agrees(build, lines, tb)
    ensures Agrees(build, lines + [line], tb.(errors := tb.errors + LineErrors(build, |lines|, line)))
  {
    var tb' := tb.(errors := tb.errors + LineErrors(build, |lines|, line));
    assert (lines + [line])[..|lines|] == lines;
    forall dest
      ensures Holds(tb', dest, FileTokens(build, lines + [line], dest))
    {
      assert FileTokens(build, lines + [line], dest) == FileTokens(build, lines, dest) + [];
      HoldsStill(tb, tb', dest, FileTokens(build, lines, dest));
    }
  }

  /** Splits a rule line, checking its domains one by one. */
  method SplitLine(line: string) returns (r: Result<(seq<string>, seq<string>), string>)
    ensures r == SplitConfigLine(line)
  {
    if !StartsWith(line, "[/") {
      return Ok(([line], []));
    }
    match SplitOnce(line[2..], "/]")
    case None => return Err("wrong upstream format: missing closing \"/]\"");
    case Some((domainsPart, upstreamsPart)) =>
      if upstreamsPart == "" {
        return Err("wrong upstream format: no upstreams after \"/]\"");
      }
      var hosts := Split(domainsPart, '/');
      var domains := [];
      for i := 0 to |hosts|
        invariant "" !in hosts[..i] && domains == Dotted(hosts[..i])
      {
        if hosts[i] == "" {
          return Err("wrong upstream format: empty domain in rule");
        }
        assert Dotted(hosts[..i + 1]) == Dotted(hosts[..i]) + [Lower(hosts[i]) + "."];
        domains := domains + [Lower(hosts[i]) + "."];
      }
      assert hosts[..|hosts|] == hosts;
      return Ok((Words(upstreamsPart), domains));
  }

  /** Adds the upstreams of one rule, token by token. */
  method AddRule(build: Build, ghost lines: seq<Line>, tb: Tables, idx: nat, tokens: seq<string>, ds: seq<string>)
    returns (tb': Tables)
    requires Agrees(build, lines, tb) && idx == |lines|
    ensures Agrees(build, lines + [Rule(tokens, ds)], tb')
  {
    tb' := tb;
    RuleStarts(build, lines, tb, ds);
    for j := 0 to |tokens|
      invariant Progress(build, lines, tokens[..j], ds, tb')
    {
      assert tokens[..j + 1] == tokens[..j] + [tokens[j]];
      tb' := AddToken(build, lines, tokens[..j], tb', idx, tokens[j], ds);
    }
    assert tokens[..|tokens|] == tokens;
    RuleEnds(build, lines, Rule(tokens, ds), tb');
  }

  /** Reads one line into the tables. */
  method AddLine(build: Build, ghost lines: seq<Line>, tb: Tables, idx: nat, raw: string) returns (tb': Tables)
    requires Agrees(build, lines, tb) && idx == |lines|
    ensures Agrees(build, lines + [ReadLine(raw)], tb')
  {
    var line := Trim(raw);
    if line == "" || line[0] == '#' {
      OtherLineEnds(build, lines, Skipped, tb);
      assert tb.errors + [] == tb.errors;
      return tb;
    }
    var split := SplitLine(line);
    match split
    case Err(e) =>
      OtherLineEnds(build, lines, Bad(e), tb);
      tb' := tb.(errors := tb.errors + [(idx, e)]);
    case Ok((tokens, ds)) =>
      tb' := AddRule(build, lines, tb, idx, tokens, ds);
  }

  /** The groups agree with the reading of the file: each is the in-order concatenation of its
      rules' upstreams, looked up in one index in which equal strings share an upstream. */
  ghost predicate ConfigReads(build: Build, lines: seq<Line>, index: map<string, TrackedUpstream>,
                              domains: map<string, Group>, defaults: Group)
  {
    && IndexOk(build, index)
    && (forall dest :: AllIndexed(index, FileTokens(build, lines, dest)))
    && defaults == Group(Via(index, FileTokens(build, lines, None)), 0)
    && (forall d :: d in domains <==> exists line :: line in lines && Names(line, d))
    && (forall d :: d in domains ==>
          domains[d] == Group(Via(index, FileTokens(build, lines, Some(d))), 0) && domains[d].upstreams != [])
  }

  function Groups(domains: map<string, seq<TrackedUpstream>>): map<string, Group> {
    map d | d in domains :: Group(domains[d], 0)
  }

  lemma AgreedGroups(build: Build, lines: seq<Line>, tb: Tables)
    requires Agrees(build, lines, tb) && tb.errors == []
    requires forall line :: line in lines ==> NamesUpstreams(line)
    ensures ConfigReads(build, lines, tb.index, Groups(tb.domains), Group(tb.defaults, 0))
  {
    NoFileErrors(build, lines);
    forall dest
      ensures AllIndexed(tb.index, FileTokens(build, lines, dest))
    {
      assert Holds(tb, dest, FileTokens(build, lines, dest));
    }
    assert Holds(tb, None, FileTokens(build, lines, None));
    forall d: string
      ensures d in tb.domains <==> exists line :: line in lines && Names(line, d)
      ensures d in tb.domains ==> tb.domains[d] == Via(tb.index, FileTokens(build, lines, Some(d)))
    {
      NamedReceive(build, lines, d);
      assert Holds(tb, Some(d), FileTokens(build, lines, Some(d)));
    }
  }

  lemma NothingRead(build: Build)
    ensures Agrees(build, [], Tables(map[], map[], [], []))
  {
  }

  lemma ReadNext(raw: seq<string>, i: nat)
    requires i < |raw|
    ensures ReadLines(raw[..i + 1]) == ReadLines(raw[..i]) + [ReadLine(raw[i])]
  {
  }

  method AddNth(build: Build, raw: seq<string>, i: nat, tb: Tables) returns (tb': Tables)
    requires i < |raw| && Agrees(build, ReadLines(raw[..i]), tb)
    ensures Agrees(build, ReadLines(raw[..i + 1]), tb')
  {
    ReadNext(raw, i);
    tb' := AddLine(build, ReadLines(raw[..i]), tb, i, raw[i]);
  }

  method FillTables(raw: seq<string>, build: Build) returns (tb: Tables)
    ensures Agrees(build, ReadLines(raw), tb)
  {
    tb := Tables(map[], map[], [], []);
    NothingRead(build);
    for i := 0 to |raw|
      invariant Agrees(build, ReadLines(raw[..i]), tb)
    {
      tb := AddNth(build, raw, i, tb);
    }
    assert raw[..|raw|] == raw;
  }

  /** Parses a file: a config that reads as the file does, or every error in line order. */
  method Parse(raw: seq<string>, build: Build, mode: Mode)
    returns (r: Result<UpstreamConfig, seq<(nat, string)>>, ghost index: map<string, TrackedUpstream>)
    ensures r.Ok? <==> forall line :: line in ReadLines(raw) ==> LineIsGood(build, line)
    ensures r.Err? ==> r.error == FileErrors(build, ReadLines(raw))
    ensures r.Ok? ==> r.value.Valid() && r.value.mode == mode
                      && ConfigReads(build, ReadLines(raw), index, r.value.domains, r.value.defaults)
  {
    var tb := FillTables(raw, build);
    index := tb.index;
    NoFileErrors(build, ReadLines(raw));
    if tb.errors != [] {
      return Err(tb.errors), index;
    }
    LinesNameUpstreams(raw);
    AgreedGroups(build, ReadLines(raw), tb);
    var cfg := new UpstreamConfig(Groups(tb.domains), Group(tb.defaults, 0), mode);
    return Ok(cfg), index;
  }

  /** In one index different strings share neither an upstream nor its tracker. */
  lemma DistinctStringsDistinctUpstreams(build: Build, index: map<string, TrackedUpstream>, s: string, t: string)
    requires IndexOk(build, index) && s in index && t in index
    ensures index[s] == index[t] <==> s == t
    ensures index[s].latency == index[t].latency <==> s == t
  {
    assert index[s].address == s && index[t].address == t;
  }

  // ----- what a parsed file means -----

  /** The upstreams were built from these addresses, in this order. */
  ghost predicate BuiltFrom(build: Build, ups: seq<TrackedUpstream>, tokens: seq<string>) {
    && |ups| == |tokens|
    && forall i :: 0 <= i < |tokens| ==>
         build(tokens[i]).Ok? && ups[i].address == tokens[i] && ups[i].transport == build(tokens[i]).value
  }

  lemma ViaIsBuilt(build: Build, index: map<string, TrackedUpstream>, tokens: seq<string>)
    requires IndexOk(build, index) && AllIndexed(index, tokens)
    ensures BuiltFrom(build, Via(index, tokens), tokens)
  {
  }

  /** When no rule repeats a domain, every group of a parsed file is built from the addresses of the
      lines that name it, in order, and the default group from those of the lines that name none. */
  lemma GroupsAreGiven(build: Build, lines: seq<Line>, index: map<string, TrackedUpstream>, domains: map<string, Group>, defaults: Group)
    requires ConfigReads(build, lines, index, domains, defaults)
    requires forall line :: line in lines ==> LineIsGood(build, line) && (line.Rule? ==> NoRepeats(line.domains))
    ensures BuiltFrom(build, defaults.upstreams, FileGives(lines, None))
    ensures forall d :: d in domains ==> BuiltFrom(build, domains[d].upstreams, FileGives(lines, Some(d)))
  {
    FileTokensAreGiven(build, lines, None);
    ViaIsBuilt(build, index, FileTokens(build, lines, None));
    forall d | d in domains
      ensures BuiltFrom(build, domains[d].upstreams, FileGives(lines, Some(d)))
    {
      FileTokensAreGiven(build, lines, Some(d));
      ViaIsBuilt(build, index, FileTokens(build, lines, Some(d)));
    }
  }

  /** Each line of the file is a plain address inside white space. */
  ghost predicate PlainLines(raw: seq<string>, words: seq<string>) {
    && |raw| == |words|
    && forall k :: 0 <= k < |raw| ==> PlainIn(raw[k], words[k])
  }

  ghost predicate PlainIn(line: string, w: string) {
    IsPlain(w) && exists a, b :: AllSpace(a) && AllSpace(b) && line == a + w + b
  }

  lemma PlainReads(raw: seq<string>, words: seq<string>)
    requires PlainLines(raw, words)
    ensures forall k :: 0 <= k < |raw| ==> ReadLines(raw)[k] == Rule([words[k]], [])
  {
    forall k | 0 <= k < |raw|
      ensures ReadLine(raw[k]) == Rule([words[k]], [])
    {
      assert PlainIn(raw[k], words[k]);
      var a, b :| AllSpace(a) && AllSpace(b) && raw[k] == a + words[k] + b;
      PlainLine(a, words[k], b);
    }
  }

  lemma {:induction false} PlainGives(lines: seq<Line>, words: seq<string>)
    requires |lines| == |words| && forall k :: 0 <= k < |lines| ==> lines[k] == Rule([words[k]], [])
    ensures FileGives(lines, None) == words
  {
    if lines != [] {
      var n := |lines| - 1;
      PlainGives(lines[..n], words[..n]);
      assert words == words[..n] + [words[n]];
    }
  }

  ghost predicate AllBuild(build: Build, words: seq<string>) {
    forall k :: 0 <= k < |words| ==> build(words[k]).Ok?
  }

  /** A file of plain addresses parses exactly when each of them builds; a config that reads as the
      file does then has them in order in its default group, and no group for a domain. */
  lemma PlainFile(build: Build, raw: seq<string>, words: seq<string>,
                  index: map<string, TrackedUpstream>, domains: map<string, Group>, defaults: Group)
    requires PlainLines(raw, words)
    ensures (forall line :: line in ReadLines(raw) ==> LineIsGood(build, line)) <==> AllBuild(build, words)
    ensures AllBuild(build, words) && ConfigReads(build, ReadLines(raw), index, domains, defaults) ==>
              domains == map[] && BuiltFrom(build, defaults.upstreams, words)
  {
    var lines := ReadLines(raw);
    PlainReads(raw, words);
    PlainGives(lines, words);
    PlainIsGood(build, lines, words);
    if AllBuild(build, words) && ConfigReads(build, lines, index, domains, defaults) {
      PlainRepeatsNone(lines, words);
      GroupsAreGiven(build, lines, index, domains, defaults);
      assert forall d :: d !in domains;
    }
  }

  lemma PlainRepeatsNone(lines: seq<Line>, words: seq<string>)
    requires |lines| == |words| && forall k :: 0 <= k < |lines| ==> lines[k] == Rule([words[k]], [])
    ensures forall line :: line in lines ==> line.Rule? && line.domains == [] && NoRepeats(line.domains)
  {
  }

  lemma PlainIsGood(build: Build, lines: seq<Line>, words: seq<string>)
    requires |lines| == |words| && forall k :: 0 <= k < |lines| ==> lines[k] == Rule([words[k]], [])
    ensures (forall line :: line in lines ==> LineIsGood(build, line)) <==> AllBuild(build, words)
  {
    if forall line :: line in lines ==> LineIsGood(build, line) {
      forall k | 0 <= k < |words|
        ensures build(words[k]).Ok?
      {
        assert LineIsGood(build, lines[k]) && words[k] in lines[k].tokens;
      }
    }
  }
}
