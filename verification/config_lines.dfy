/** How the lines of an upstream file read: a declarative account that the parser must meet. */
module ConfigLines {
  import opened Basics
  import opened Text

  /** Splits a trimmed line into upstream addresses and the domains they are reserved for. */
  function SplitConfigLine(line: string): Result<(seq<string>, seq<string>), string> {
    if !StartsWith(line, "[/") then Ok(([line], []))
    else match SplitOnce(line[2..], "/]")
      case None => Err("wrong upstream format: missing closing \"/]\"")
      case Some((domainsPart, upstreamsPart)) =>
        if upstreamsPart == "" then Err("wrong upstream format: no upstreams after \"/]\"")
        else
          var hosts := Split(domainsPart, '/');
          if "" in hosts then Err("wrong upstream format: empty domain in rule")
          else Ok((Words(upstreamsPart), Dotted(hosts)))
  }

  /** Every host lowercased, with a final dot. */
  function Dotted(hosts: seq<string>): (r: seq<string>)
    ensures |r| == |hosts| && forall i :: 0 <= i < |hosts| ==> r[i] == Lower(hosts[i]) + "."
  {
    seq(|hosts|, i requires 0 <= i < |hosts| => Lower(hosts[i]) + ".")
  }

  /** A rule written the way the file format asks for it. */
  function WriteRule(hosts: seq<string>, upstreams: seq<string>): string {
    "[/" + Join(hosts, '/') + "/]" + Join(upstreams, ' ')
  }

  /** The written form of a rule is read back as that rule, whatever its hosts and addresses. */
  lemma RuleRoundTrip(hosts: seq<string>, upstreams: seq<string>)
    requires hosts != [] && upstreams != []
    requires forall h :: h in hosts ==> h != "" && '/' !in h && h[0] != ']'
    requires forall u :: u in upstreams ==> IsWord(u)
    ensures SplitConfigLine(WriteRule(hosts, upstreams)) == Ok((upstreams, Dotted(hosts)))
  {
    var d, u := Join(hosts, '/'), Join(upstreams, ' ');
    var line := WriteRule(hosts, upstreams);
    assert line[2..] == d + "/]" + u;
    assert line[0..2] == "[/";
    NoEarlyClose(hosts, u);
    SplitOnceAt(d, "/]", u);
    assert IsWord(upstreams[0]);
    JoinNonEmpty(upstreams, ' ');
    SplitJoin(hosts, '/');
    WordsJoin(upstreams);
  }

  lemma JoinNonEmpty(ws: seq<string>, c: char)
    requires ws != [] && ws[0] != ""
    ensures Join(ws, c) != "" && Join(ws, c)[0] == ws[0][0]
  {
  }

  /** Inside the joined hosts no slash is followed by a bracket. */
  lemma {:induction false} NoEarlyClose(hosts: seq<string>, rest: string)
    requires hosts != []
    requires forall h :: h in hosts ==> h != "" && '/' !in h && h[0] != ']'
    ensures forall i :: 0 <= i < |Join(hosts, '/')| ==> !OccursAt(Join(hosts, '/') + "/]" + rest, "/]", i)
  {
    var h := hosts[0];
    assert h in hosts;
    var s := Join(hosts, '/') + "/]" + rest;
    if |hosts| == 1 {
      forall i | 0 <= i < |h|
        ensures !OccursAt(s, "/]", i)
      {
        assert s[i] == h[i];
      }
    } else {
      var tail := Join(hosts[1..], '/');
      assert forall g :: g in hosts[1..] ==> g in hosts;
      NoEarlyClose(hosts[1..], rest);
      assert hosts[1] in hosts && hosts[1..][0] == hosts[1];
      JoinNonEmpty(hosts[1..], '/');
      var s' := tail + "/]" + rest;
      assert s == h + "/" + s';
      forall i | 0 <= i < |Join(hosts, '/')|
        ensures !OccursAt(s, "/]", i)
      {
        assert i + 2 <= |s| ==> s[i..i + 2][0] == s[i] && s[i..i + 2][1] == s[i + 1];
        if i < |h| {
          assert s[i] == h[i];
        } else if i == |h| {
          assert s[i + 1] == hosts[1][0];
        } else {
          var k := i - |h| - 1;
          assert i + 2 <= |s| ==> s[i..i + 2] == s'[k..k + 2];
          assert !OccursAt(s', "/]", k);
        }
      }
    }
  }

  // ----- the reading of one line -----

  datatype Line = Skipped | Bad(what: string) | Rule(tokens: seq<string>, domains: seq<string>)

  function ReadLine(raw: string): Line {
    var line := Trim(raw);
    if line == "" || line[0] == '#' then Skipped
    else match SplitConfigLine(line)
      case Err(e) => Bad(e)
      case Ok((tokens, domains)) => Rule(tokens, domains)
  }

  lemma OpensRule(line: string)
    ensures StartsWith(line, "[/") <==> |line| >= 2 && line[0] == '[' && line[1] == '/'
  {
    if |line| >= 2 {
      assert line[0..2] == [line[0], line[1]];
    }
  }

  /** A line that is neither a comment nor a rule, inside any white space, is one address for the
      default group. */
  lemma PlainLine(a: string, w: string, b: string)
    requires AllSpace(a) && AllSpace(b) && IsPlain(w)
    ensures ReadLine(a + w + b) == Rule([w], [])
  {
    TrimOf(a, w, b);
    OpensRule(w);
  }

  /** What a line for the default group may hold. */
  ghost predicate IsPlain(w: string) {
    Tight(w) && w[0] != '#' && (w[0] == '[' ==> |w| == 1 || w[1] != '/')
  }

  lemma {:induction false} JoinEnds(ws: seq<string>)
    requires ws != [] && forall w :: w in ws ==> IsWord(w)
    ensures Tight(Join(ws, ' '))
  {
    assert IsWord(ws[0]);
    if |ws| > 1 {
      JoinEnds(ws[1..]);
    }
  }

  /** A written rule, inside any white space, is read as that rule. */
  lemma RuleLine(a: string, hosts: seq<string>, upstreams: seq<string>, b: string)
    requires AllSpace(a) && AllSpace(b) && hosts != [] && upstreams != []
    requires forall h :: h in hosts ==> h != "" && '/' !in h && h[0] != ']'
    requires forall u :: u in upstreams ==> IsWord(u)
    ensures ReadLine(a + WriteRule(hosts, upstreams) + b) == Rule(upstreams, Dotted(hosts))
  {
    var line := WriteRule(hosts, upstreams);
    JoinEnds(upstreams);
    var u := Join(upstreams, ' ');
    assert line[|line| - 1] == u[|u| - 1] && line[0] == '[';
    TrimOf(a, line, b);
    RuleRoundTrip(hosts, upstreams);
  }

  ghost predicate CommentAt(raw: string, a: string, rest: string) {
    AllSpace(a) && raw == a + "#" + rest
  }

  lemma FirstOfTrim(a: string, s: string)
    requires AllSpace(a) && s != "" && !IsSpace(s[0])
    ensures Trim(a + s) != "" && Trim(a + s)[0] == s[0]
  {
    TrimStartOf(a, s);
  }

  lemma HeadAndTail(s: string, c: char)
    requires s != "" && s[0] == c
    ensures s == [c] + s[1..]
  {
  }

  lemma CommentHasPlace(raw: string) returns (a: string, rest: string)
    requires Trim(raw) != "" && Trim(raw)[0] == '#'
    ensures CommentAt(raw, a, rest)
  {
    var b;
    a, b := TrimParts(raw);
    var tail := Trim(raw)[1..];
    HeadAndTail(Trim(raw), '#');
    Regroup(a, "#", tail, b);
    rest := tail + b;
  }

  lemma CommentIsFirst(raw: string, a: string, rest: string)
    requires CommentAt(raw, a, rest)
    ensures Trim(raw) != "" && Trim(raw)[0] == '#'
  {
    Associate(a, "#", rest);
    FirstOfTrim(a, "#" + rest);
  }

  /** Skipped are exactly the lines of white space and those whose first other character is '#'. */
  lemma SkippedIff(raw: string)
    ensures ReadLine(raw) == Skipped <==> AllSpace(raw) || exists a, rest :: CommentAt(raw, a, rest)
  {
    TrimEmptyIff(raw);
    if Trim(raw) != "" && Trim(raw)[0] == '#' {
      var a, rest := CommentHasPlace(raw);
    }
    if a, rest :| CommentAt(raw, a, rest) {
      CommentIsFirst(raw, a, rest);
    }
  }

  /** The part of a rule behind "[/" is in error: it is not closed, names no upstream, or has an
      empty domain. */
  ghost predicate BadRule(rest: string) {
    || (forall i: nat :: !OccursAt(rest, "/]", i))
    || exists n: nat :: FirstAt(rest, "/]", n) && (|rest| == n + 2 || HasGap(rest[..n], '/'))
  }

  /** In error are exactly the rules of that kind. */
  lemma BadIff(raw: string)
    ensures ReadLine(raw).Bad? <==>
            var line := Trim(raw);
            |line| >= 2 && line[0] == '[' && line[1] == '/' && BadRule(line[2..])
  {
    var line := Trim(raw);
    OpensRule(line);
    if StartsWith(line, "[/") {
      assert line == "[/" + line[2..];
      RuleIsBadIff(line[2..]);
    }
  }

  lemma RuleIsBadIff(rest: string)
    ensures SplitConfigLine("[/" + rest).Err? <==> BadRule(rest)
  {
    var line := "[/" + rest;
    assert line[0..2] == "[/" && line[2..] == rest;
    SplitOnceFirst(rest, "/]");
    match SplitOnce(rest, "/]")
    case None =>
    case Some((d, u)) =>
      assert FirstAt(rest, "/]", |d|) && rest[..|d|] == d;
      EmptyPieceIff(d, '/');
      forall n: nat | FirstAt(rest, "/]", n)
        ensures n == |d|
      {
        FirstAtUnique(rest, "/]", n, |d|);
      }
  }

  /** Every rule names at least one upstream: a trimmed line does not end in white space. */
  lemma RuleNamesUpstreams(raw: string)
    requires ReadLine(raw).Rule?
    ensures ReadLine(raw).tokens != []
  {
    var line := Trim(raw);
    if StartsWith(line, "[/") {
      var rest := line[2..];
      SplitOnceFirst(rest, "/]");
      var (d, u) := SplitOnce(rest, "/]").value;
      assert u[|u| - 1] == line[|line| - 1];
      WordsNonEmpty(u, |u| - 1);
    }
  }

  function ReadLines(raw: seq<string>): (r: seq<Line>)
    ensures |r| == |raw| && forall i :: 0 <= i < |raw| ==> r[i] == ReadLine(raw[i])
  {
    seq(|raw|, i requires 0 <= i < |raw| => ReadLine(raw[i]))
  }

  ghost predicate NamesUpstreams(line: Line) {
    line.Rule? ==> line.tokens != []
  }

  lemma LinesNameUpstreams(raw: seq<string>)
    ensures forall i :: 0 <= i < |raw| ==> NamesUpstreams(ReadLines(raw)[i])
  {
    forall i | 0 <= i < |raw|
      ensures NamesUpstreams(ReadLines(raw)[i])
    {
      if ReadLine(raw[i]).Rule? {
        RuleNamesUpstreams(raw[i]);
      }
    }
  }

  /** The places a rule's upstreams go to: the named domains, or the default group. */
  function Destinations(domains: seq<string>): (r: seq<Option<string>>)
    ensures domains == [] ==> r == [None]
    ensures domains != [] ==> |r| == |domains| && forall i :: 0 <= i < |r| ==> r[i] == Some(domains[i])
  {
    if domains == [] then [None] else seq(|domains|, i requires 0 <= i < |domains| => Some(domains[i]))
  }

  /** `x` once for every occurrence of `dest`. */
  function Copies<T, D(==)>(x: T, dests: seq<D>, dest: D): seq<T> {
    if dests == [] then []
    else Copies(x, dests[..|dests| - 1], dest) + (if dests[|dests| - 1] == dest then [x] else [])
  }

  type Builder<!T> = string -> Result<T, string>

  /** The tokens of one rule that a destination receives, in order; those that do not build are left out. */
  function RuleTokens<T>(build: Builder<T>, tokens: seq<string>, dests: seq<Option<string>>, dest: Option<string>): seq<string> {
    if tokens == [] then []
    else
      var t := tokens[|tokens| - 1];
      RuleTokens(build, tokens[..|tokens| - 1], dests, dest) + (if build(t).Ok? then Copies(t, dests, dest) else [])
  }

  function RuleErrors<T>(build: Builder<T>, idx: nat, tokens: seq<string>): seq<(nat, string)> {
    if tokens == [] then []
    else
      var t := tokens[|tokens| - 1];
      RuleErrors(build, idx, tokens[..|tokens| - 1]) + (if build(t).Ok? then [] else [(idx, build(t).error)])
  }

  function LineTokens<T>(build: Builder<T>, line: Line, dest: Option<string>): seq<string> {
    if line.Rule? then RuleTokens(build, line.tokens, Destinations(line.domains), dest) else []
  }

  function LineErrors<T>(build: Builder<T>, idx: nat, line: Line): seq<(nat, string)> {
    match line
    case Skipped => []
    case Bad(e) => [(idx, e)]
    case Rule(tokens, _) => RuleErrors(build, idx, tokens)
  }

  // ----- the reading of a file -----

  /** Everything a destination receives, in line order. */
  function FileTokens<T>(build: Builder<T>, lines: seq<Line>, dest: Option<string>): seq<string> {
    if lines == [] then []
    else FileTokens(build, lines[..|lines| - 1], dest) + LineTokens(build, lines[|lines| - 1], dest)
  }

  /** One error per bad line or bad token occurrence, in line order. */
  function FileErrors<T>(build: Builder<T>, lines: seq<Line>): seq<(nat, string)> {
    if lines == [] then []
    else FileErrors(build, lines[..|lines| - 1]) + LineErrors(build, |lines| - 1, lines[|lines| - 1])
  }

  ghost predicate LineIsGood<T>(build: Builder<T>, line: Line) {
    match line
    case Skipped => true
    case Bad(_) => false
    case Rule(tokens, _) => forall t :: t in tokens ==> build(t).Ok?
  }

  lemma {:induction false} NoRuleErrors<T>(build: Builder<T>, idx: nat, tokens: seq<string>)
    ensures RuleErrors(build, idx, tokens) == [] <==> forall t :: t in tokens ==> build(t).Ok?
  {
    if tokens != [] {
      NoRuleErrors(build, idx, tokens[..|tokens| - 1]);
      assert tokens == tokens[..|tokens| - 1] + [tokens[|tokens| - 1]];
    }
  }

  /** A file has no errors exactly when every line splits and every token builds. */
  lemma {:induction false} NoFileErrors<T>(build: Builder<T>, lines: seq<Line>)
    ensures FileErrors(build, lines) == [] <==>
            forall line :: line in lines ==> LineIsGood(build, line)
  {
    if lines != [] {
      var init, last := lines[..|lines| - 1], lines[|lines| - 1];
      NoFileErrors(build, init);
      if last.Rule? {
        NoRuleErrors(build, |init|, last.tokens);
      }
      assert LineErrors(build, |init|, last) == [] <==> LineIsGood(build, last);
      assert forall line :: line in lines <==> line in init || line == last;
    }
  }

  lemma {:induction false} RuleErrorsNumbered<T>(build: Builder<T>, idx: nat, tokens: seq<string>)
    ensures forall e :: e in RuleErrors(build, idx, tokens) ==> e.0 == idx
  {
    if tokens != [] {
      RuleErrorsNumbered(build, idx, tokens[..|tokens| - 1]);
    }
  }

  /** Errors are numbered by line and come out in line order. */
  lemma {:induction false} ErrorsAreOrdered<T>(build: Builder<T>, lines: seq<Line>)
    ensures var errs := FileErrors(build, lines);
            && (forall e :: e in errs ==> e.0 < |lines|)
            && forall i, j :: 0 <= i < j < |errs| ==> errs[i].0 <= errs[j].0
  {
    if lines != [] {
      var init, last := lines[..|lines| - 1], lines[|lines| - 1];
      ErrorsAreOrdered(build, init);
      if last.Rule? {
        RuleErrorsNumbered(build, |init|, last.tokens);
      }
    }
  }

  /** The errors of a file are exactly those of its lines: the line's own, or one of a token of it. */
  lemma {:induction false} ErrorsAreOfLines<T>(build: Builder<T>, lines: seq<Line>, i: nat, e: string)
    ensures (i, e) in FileErrors(build, lines) <==>
            i < |lines| && match lines[i]
                           case Skipped => false
                           case Bad(what) => e == what
                           case Rule(tokens, _) => exists t :: t in tokens && build(t) == Err(e)
  {
    if lines != [] {
      var init, last := lines[..|lines| - 1], lines[|lines| - 1];
      ErrorsAreOfLines(build, init, i, e);
      if last.Rule? {
        RuleErrorsAre(build, |init|, last.tokens, i, e);
      }
    }
  }

  lemma {:induction false} RuleErrorsAre<T>(build: Builder<T>, idx: nat, tokens: seq<string>, i: nat, e: string)
    ensures (i, e) in RuleErrors(build, idx, tokens) <==> i == idx && exists t :: t in tokens && build(t) == Err(e)
  {
    if tokens != [] {
      var init, last := tokens[..|tokens| - 1], tokens[|tokens| - 1];
      RuleErrorsAre(build, idx, init, i, e);
      assert forall t :: t in tokens <==> t in init || t == last;
    }
  }

  // ----- who receives what -----

  ghost predicate NoRepeats<D>(xs: seq<D>) {
    forall i, j :: 0 <= i < j < |xs| ==> xs[i] != xs[j]
  }

  lemma LastIsNew<D>(dests: seq<D>, dest: D)
    requires NoRepeats(dests) && dests != []
    ensures var init, last := dests[..|dests| - 1], dests[|dests| - 1];
            NoRepeats(init) && last !in init && (dest in dests <==> dest in init || dest == last)
  {
    var init, last := dests[..|dests| - 1], dests[|dests| - 1];
    assert dests == init + [last];
    assert forall i :: 0 <= i < |init| ==> dests[i] == init[i];
  }

  lemma {:induction false} CopiesOnce<T, D>(x: T, dests: seq<D>, dest: D)
    requires NoRepeats(dests)
    ensures Copies(x, dests, dest) == if dest in dests then [x] else []
  {
    if dests != [] {
      LastIsNew(dests, dest);
      CopiesOnce(x, dests[..|dests| - 1], dest);
    }
  }

  lemma {:induction false} RuleGives<T>(build: Builder<T>, tokens: seq<string>, dests: seq<Option<string>>, dest: Option<string>)
    requires NoRepeats(dests) && forall i :: 0 <= i < |tokens| ==> build(tokens[i]).Ok?
    ensures RuleTokens(build, tokens, dests, dest) == if dest in dests then tokens else []
  {
    if tokens != [] {
      var init, last := tokens[..|tokens| - 1], tokens[|tokens| - 1];
      RuleGives(build, init, dests, dest);
      CopiesOnce(last, dests, dest);
      assert RuleTokens(build, tokens, dests, dest) == RuleTokens(build, init, dests, dest) + Copies(last, dests, dest);
      assert tokens == init + [last];
    }
  }

  /** A rule that repeats a domain gives it every token as often. */
  lemma {:induction false} CopiesCount<T, D>(x: T, dests: seq<D>, dest: D)
    ensures |Copies(x, dests, dest)| == multiset(dests)[dest]
    ensures forall i :: 0 <= i < |Copies(x, dests, dest)| ==> Copies(x, dests, dest)[i] == x
  {
    if dests != [] {
      CopiesCount(x, dests[..|dests| - 1], dest);
      assert dests == dests[..|dests| - 1] + [dests[|dests| - 1]];
    }
  }

  ghost function BadPlaces<T>(build: Builder<T>, tokens: seq<string>): set<int> {
    set i | 0 <= i < |tokens| && build(tokens[i]).Err?
  }

  lemma BadPlacesLast<T>(build: Builder<T>, tokens: seq<string>)
    requires tokens != []
    ensures var n := |tokens| - 1;
            |BadPlaces(build, tokens)| == |BadPlaces(build, tokens[..n])| + if build(tokens[n]).Err? then 1 else 0
  {
    var n := |tokens| - 1;
    assert forall i :: 0 <= i < n ==> tokens[..n][i] == tokens[i];
    assert BadPlaces(build, tokens) == BadPlaces(build, tokens[..n]) + if build(tokens[n]).Err? then {n} else {};
  }

  /** A token that does not build is reported as often as it occurs. */
  lemma {:induction false} ErrorsPerToken<T>(build: Builder<T>, idx: nat, tokens: seq<string>)
    ensures |RuleErrors(build, idx, tokens)| == |BadPlaces(build, tokens)|
  {
    if tokens != [] {
      ErrorsPerToken(build, idx, tokens[..|tokens| - 1]);
      BadPlacesLast(build, tokens);
    }
  }

  /** What a line gives to a destination: its tokens, to each of its domains or else to the default group. */
  ghost function Gives(line: Line, dest: Option<string>): seq<string> {
    match line
    case Rule(tokens, domains) =>
      (match dest
       case None => if domains == [] then tokens else []
       case Some(d) => if d in domains then tokens else [])
    case _ => []
  }

  lemma LineGives<T>(build: Builder<T>, line: Line, dest: Option<string>)
    requires LineIsGood(build, line) && (line.Rule? ==> NoRepeats(line.domains))
    ensures LineTokens(build, line, dest) == Gives(line, dest)
  {
    if line.Rule? {
      var dests := Destinations(line.domains);
      RuleGives(build, line.tokens, dests, dest);
      if dest.Some? {
        InDestinations(line.domains, dest.value);
      }
    }
  }

  /** What a file without errors gives to a destination: what its lines give, in order. */
  ghost function FileGives(lines: seq<Line>, dest: Option<string>): seq<string> {
    if lines == [] then [] else FileGives(lines[..|lines| - 1], dest) + Gives(lines[|lines| - 1], dest)
  }

  /** When no rule repeats a domain, a destination receives the tokens of the lines that name it, in order. */
  lemma {:induction false} FileTokensAreGiven<T>(build: Builder<T>, lines: seq<Line>, dest: Option<string>)
    requires forall line :: line in lines ==> LineIsGood(build, line) && (line.Rule? ==> NoRepeats(line.domains))
    ensures FileTokens(build, lines, dest) == FileGives(lines, dest)
  {
    if lines != [] {
      var init, last := lines[..|lines| - 1], lines[|lines| - 1];
      assert last in lines && forall line :: line in init ==> line in lines;
      FileTokensAreGiven(build, init, dest);
      LineGives(build, last, dest);
    }
  }

  // ----- which domains have a group -----

  ghost predicate Names(line: Line, d: string) {
    line.Rule? && d in line.domains
  }

  lemma {:induction false} CopiesNonEmpty<T, D>(x: T, dests: seq<D>, dest: D)
    ensures Copies(x, dests, dest) != [] <==> dest in dests
  {
    if dests != [] {
      CopiesNonEmpty(x, dests[..|dests| - 1], dest);
      assert dests == dests[..|dests| - 1] + [dests[|dests| - 1]];
    }
  }

  lemma {:induction false} RuleReaches<T>(build: Builder<T>, tokens: seq<string>, dests: seq<Option<string>>, dest: Option<string>)
    requires forall t :: t in tokens ==> build(t).Ok?
    ensures RuleTokens(build, tokens, dests, dest) != [] <==> tokens != [] && dest in dests
  {
    if tokens != [] {
      RuleReaches(build, tokens[..|tokens| - 1], dests, dest);
      CopiesNonEmpty(tokens[|tokens| - 1], dests, dest);
    }
  }

  lemma InDestinations(domains: seq<string>, d: string)
    ensures Some(d) in Destinations(domains) <==> d in domains
  {
    var dests := Destinations(domains);
    if d in domains {
      var i :| 0 <= i < |domains| && domains[i] == d;
      assert dests[i] == Some(d);
    }
  }

  /** In a file without errors exactly the domains named by a rule receive upstreams. */
  lemma {:induction false} NamedReceive<T>(build: Builder<T>, lines: seq<Line>, d: string)
    requires forall line :: line in lines ==> LineIsGood(build, line) && NamesUpstreams(line)
    ensures FileTokens(build, lines, Some(d)) != [] <==> exists line :: line in lines && Names(line, d)
  {
    if lines != [] {
      var init, last := lines[..|lines| - 1], lines[|lines| - 1];
      NamedReceive(build, init, d);
      assert last in lines;
      if last.Rule? {
        RuleReaches(build, last.tokens, Destinations(last.domains), Some(d));
        InDestinations(last.domains, d);
      }
      assert forall line :: line in lines <==> line in init || line == last;
      assert LineTokens(build, last, Some(d)) != [] <==> Names(last, d);
    }
  }
}
