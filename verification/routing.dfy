/** Longest-suffix routing of query names to domain rules. */
module Routing {
  import opened Basics
  import opened Text

  /** `d` is the whole of `s`, or what follows one of its dots. */
  ghost predicate DotSuffix(s: string, d: string) {
    d == s || exists i :: 0 < i < |s| && s[i - 1] == '.' && d == s[i..]
  }

  /** What routing promises: the longest configured domain that is a dot-aligned suffix of the
      lowercased name, and no domain exactly when none is one. */
  ghost predicate RoutesTo(domains: set<string>, fqdn: string, r: Option<string>) {
    match r
    case Some(d) =>
      && d in domains && DotSuffix(Lower(fqdn), d)
      && forall d' :: d' in domains && DotSuffix(Lower(fqdn), d') ==> |d'| <= |d|
    case None => forall d :: d in domains ==> !DotSuffix(Lower(fqdn), d)
  }

  lemma SuffixByLength(s: string, d: string, d': string)
    requires DotSuffix(s, d) && DotSuffix(s, d') && |d| == |d'|
    ensures d == d'
  {
    assert d == s[|s| - |d|..] && d' == s[|s| - |d'|..];
  }

  /** The promise determines the route, whatever ASCII case the name is written in. */
  lemma RouteIsUnique(domains: set<string>, fqdn: string, fqdn': string, r: Option<string>, r': Option<string>)
    requires Lower(fqdn) == Lower(fqdn')
    requires RoutesTo(domains, fqdn, r) && RoutesTo(domains, fqdn', r')
    ensures r == r'
  {
    if r.Some? && r'.Some? {
      SuffixByLength(Lower(fqdn), r.value, r'.value);
    }
  }

  /** Tries ever shorter suffixes until one is configured. */
  method FindDomain<V>(domains: map<string, V>, fqdn: string) returns (r: Option<string>)
    ensures RoutesTo(domains.Keys, fqdn, r)
  {
    if |domains| == 0 {
      return None;
    }
    var lower := Lower(fqdn);
    var suffix := lower;
    while true
      invariant DotSuffix(lower, suffix)
      invariant forall d :: d in domains && DotSuffix(lower, d) ==> |d| <= |suffix|
      decreases |suffix|
    {
      if suffix in domains {
        return Some(suffix);
      }
      assert forall d :: d in domains && DotSuffix(lower, d) ==> |d| < |suffix| by {
        forall d | d in domains && DotSuffix(lower, d) && |d| == |suffix| ensures d == suffix {
          SuffixByLength(lower, d, suffix);
        }
      }
      NextSuffix(lower, suffix);
      match SplitOnce(suffix, ".")
      case Some((head, rest)) =>
        if rest == "" {
          break;
        }
        suffix := rest;
      case None => break;
    }
    return None;
  }

  /** The next shorter dot suffix is what follows the first dot, if anything does. */
  lemma NextSuffix(s: string, suffix: string)
    requires DotSuffix(s, suffix)
    ensures match SplitOnce(suffix, ".")
            case Some((head, rest)) =>
              && |rest| < |suffix|
              && (rest != "" ==> DotSuffix(s, rest))
              && forall d :: DotSuffix(s, d) && |d| < |suffix| ==> rest != "" && |d| <= |rest|
            case None => forall d :: DotSuffix(s, d) ==> |d| >= |suffix|
  {
    SplitOnceChar(suffix, '.');
    match SplitOnce(suffix, ".")
    case Some((head, rest)) =>
      assert rest == suffix[|head| + 1..];
      assert forall i :: 0 <= i < |head| ==> suffix[i] == head[i];
      ShorterSuffixes(s, suffix, |head|);
    case None =>
      ShorterSuffixes(s, suffix, |suffix|);
  }

  lemma ShorterSuffixes(s: string, suffix: string, n: nat)
    requires DotSuffix(s, suffix) && n <= |suffix|
    requires forall i :: 0 <= i < n ==> suffix[i] != '.'
    ensures forall d :: DotSuffix(s, d) && |d| < |suffix| ==> 0 < |d| < |suffix| - n
    ensures n + 1 < |suffix| && suffix[n] == '.' ==> DotSuffix(s, suffix[n + 1..])
  {
    var k := |s| - |suffix|;
    assert suffix == s[k..];
    forall d | DotSuffix(s, d) && |d| < |suffix|
      ensures 0 < |d| < |suffix| - n
    {
      var i :| 0 < i < |s| && s[i - 1] == '.' && d == s[i..];
      assert s[i - 1] == suffix[i - 1 - k];
    }
    if n + 1 < |suffix| && suffix[n] == '.' {
      assert s[k + n] == '.' && suffix[n + 1..] == s[k + n + 1..];
    }
  }

  // ----- what the suffix rule means for labels -----

  /** A name written out: every label followed by a dot. */
  function Written(labels: seq<string>): string {
    if labels == [] then "" else labels[0] + "." + Written(labels[1..])
  }

  /** No dot inside a label. */
  ghost predicate PlainLabels(labels: seq<string>) {
    forall i :: 0 <= i < |labels| ==> '.' !in labels[i]
  }

  lemma {:induction false} WrittenIsInjective(a: seq<string>, b: seq<string>)
    requires PlainLabels(a) && PlainLabels(b) && Written(a) == Written(b)
    ensures a == b
  {
    if a != [] && b != [] {
      SplitOnceAtChar(a[0], '.', Written(a[1..]));
      SplitOnceAtChar(b[0], '.', Written(b[1..]));
      WrittenIsInjective(a[1..], b[1..]);
      assert a == [a[0]] + a[1..] && b == [b[0]] + b[1..];
    }
  }

  /** Dropping the first label drops exactly the longest dot suffix. */
  lemma TailSuffixes(head: string, t: string, d: string)
    requires '.' !in head
    ensures DotSuffix(head + "." + t, d) <==> d == head + "." + t || (t != "" && DotSuffix(t, d))
  {
    var s, n := head + "." + t, |head| + 1;
    assert s[n - 1] == '.' && s[n..] == t;
    assert forall i :: 0 <= i < |head| ==> s[i] in head;
    if DotSuffix(s, d) && d != s {
      var i :| 0 < i < |s| && s[i - 1] == '.' && d == s[i..];
      assert d == t[i - n..];
      assert i > n ==> t[i - n - 1] == s[i - 1];
    }
    if t != "" && DotSuffix(t, d) && d != t {
      var i :| 0 < i < |t| && t[i - 1] == '.' && d == t[i..];
      assert s[i + n - 1] == '.' && d == s[i + n..];
    }
  }

  ghost predicate LabelSuffix(labels: seq<string>, k: nat, d: string) {
    k < |labels| && d == Written(labels[k..])
  }

  /** The dot suffixes of a written name are its written label suffixes. */
  lemma {:induction false} SuffixesAreLabelSuffixes(labels: seq<string>, d: string)
    requires PlainLabels(labels) && labels != []
    ensures DotSuffix(Written(labels), d) <==> exists k: nat :: LabelSuffix(labels, k, d)
  {
    var head, tail := labels[0], labels[1..];
    TailSuffixes(head, Written(tail), d);
    assert labels[0..] == labels;
    assert d == Written(labels) ==> LabelSuffix(labels, 0, d);
    if tail != [] {
      SuffixesAreLabelSuffixes(tail, d);
      if k: nat :| LabelSuffix(tail, k, d) {
        assert tail[k..] == labels[k + 1..];
        assert LabelSuffix(labels, k + 1, d);
      }
      if k: nat :| LabelSuffix(labels, k, d) && k > 0 {
        assert tail[k - 1..] == labels[k..];
        assert LabelSuffix(tail, k - 1, d);
      }
    }
  }

  ghost predicate EndsWith(name: seq<string>, rule: seq<string>) {
    |rule| <= |name| && rule == name[|name| - |rule|..]
  }

  lemma LabelSuffixEnds(name: seq<string>, k: nat, rule: seq<string>)
    requires PlainLabels(name) && PlainLabels(rule) && LabelSuffix(name, k, Written(rule))
    ensures EndsWith(name, rule)
  {
    WrittenIsInjective(rule, name[k..]);
  }

  /** For plain labels a rule covers a name exactly when the rule's labels are the name's last labels. */
  lemma PlainRuleCovers(name: seq<string>, rule: seq<string>)
    requires PlainLabels(name) && PlainLabels(rule) && name != [] && rule != []
    ensures DotSuffix(Written(name), Written(rule)) <==> EndsWith(name, rule)
  {
    SuffixesAreLabelSuffixes(name, Written(rule));
    if k: nat :| LabelSuffix(name, k, Written(rule)) {
      LabelSuffixEnds(name, k, rule);
    } else if EndsWith(name, rule) {
      assert LabelSuffix(name, |name| - |rule|, Written(rule));
    }
  }

  // ----- labels with dots inside -----

  /** The labels as routing sees them: cut at every dot. */
  function Pieces(labels: seq<string>): seq<string> {
    if labels == [] then [] else Split(labels[0], '.') + Pieces(labels[1..])
  }

  lemma {:induction false} WrittenAppend(a: seq<string>, b: seq<string>)
    ensures Written(a + b) == Written(a) + Written(b)
  {
    if a == [] {
      assert a + b == b;
    } else {
      assert (a + b)[1..] == a[1..] + b;
      WrittenAppend(a[1..], b);
      assert (a + b)[0] == a[0];
    }
  }

  lemma {:induction false} SplitIsWritten(s: string)
    ensures Written(Split(s, '.')) == s + "." && PlainLabels(Split(s, '.'))
    ensures '.' !in s ==> Split(s, '.') == [s]
    decreases |s|
  {
    SplitOnceChar(s, '.');
    match SplitOnce(s, ".")
    case None =>
      assert Written([s]) == s + "." + Written([]);
    case Some((a, b)) =>
      SplitIsWritten(b);
      assert Split(s, '.')[1..] == Split(b, '.');
      assert s[|a|] == '.';
  }

  lemma {:induction false} PiecesAreWritten(labels: seq<string>)
    ensures Written(Pieces(labels)) == Written(labels) && PlainLabels(Pieces(labels))
    ensures |Pieces(labels)| >= |labels|
    ensures PlainLabels(labels) ==> Pieces(labels) == labels
  {
    if labels != [] {
      PiecesAreWritten(labels[1..]);
      SplitIsWritten(labels[0]);
      WrittenAppend(Split(labels[0], '.'), Pieces(labels[1..]));
      assert labels == [labels[0]] + labels[1..];
    }
  }

  /** A rule covers a name exactly when, both cut at every dot, the rule's pieces are the name's last. */
  lemma RuleCoversSubdomains(name: seq<string>, rule: seq<string>)
    requires name != [] && rule != []
    ensures DotSuffix(Written(name), Written(rule)) <==> EndsWith(Pieces(name), Pieces(rule))
    ensures PlainLabels(name) && PlainLabels(rule) ==>
              (DotSuffix(Written(name), Written(rule)) <==> EndsWith(name, rule))
  {
    PiecesAreWritten(name);
    PiecesAreWritten(rule);
    PlainRuleCovers(Pieces(name), Pieces(rule));
  }

  /** For a name, routing by the text agrees with routing by labels under every plain rule exactly when
      no label of the name has a dot inside. */
  lemma LabelsDecideIff(name: seq<string>)
    requires name != []
    ensures (forall rule :: rule != [] && PlainLabels(rule) ==>
               (DotSuffix(Written(name), Written(rule)) <==> EndsWith(name, rule)))
            <==> PlainLabels(name)
  {
    if PlainLabels(name) {
      forall rule | rule != [] && PlainLabels(rule)
        ensures DotSuffix(Written(name), Written(rule)) <==> EndsWith(name, rule)
      {
        PlainRuleCovers(name, rule);
      }
    } else {
      PiecesAreWritten(name);
      var rule := Pieces(name);
      assert rule != [] && PlainLabels(rule) && DotSuffix(Written(name), Written(rule));
      assert EndsWith(name, rule) ==> rule == name;
    }
  }
}
