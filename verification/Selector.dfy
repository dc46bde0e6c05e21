/** The pod label selector: printed by the worker helper (worker.rs), parsed and matched by the pod
    cache (pod_cache.rs). */
module Selector {
  import opened Wrappers

  type Pair = (string, string)

  datatype Requirement = Requirement(key: string, operator: string, values: Option<seq<string>>)

  /** matchLabels lists the entries of an ordered map, hence each key once. */
  datatype LabelSelector = LabelSelector(matchLabels: Option<seq<Pair>>, matchExpressions: Option<seq<Requirement>>)

  datatype BuildError =
    | NotOneValue(key: string)
    | UnsupportedOperator(operator: string, key: string)
    | NoUsableConstraint

  // ---- printing ----

  function Print(p: Pair): string {
    p.0 + "=" + p.1
  }

  function Join(parts: seq<string>): string {
    if parts == [] then ""
    else if |parts| == 1 then parts[0]
    else parts[0] + "," + Join(parts[1..])
  }

  function Labels(selector: LabelSelector): (labels: seq<Pair>)
    ensures selector.matchLabels == Some(labels) || (selector.matchLabels == None && labels == [])
  {
    if selector.matchLabels.Some? then selector.matchLabels.value else []
  }

  function Expressions(selector: LabelSelector): (expressions: seq<Requirement>)
    ensures selector.matchExpressions == Some(expressions) || (selector.matchExpressions == None && expressions == [])
  {
    if selector.matchExpressions.Some? then selector.matchExpressions.value else []
  }

  predicate SingleIn(r: Requirement) {
    r.operator == "In" && r.values.Some? && |r.values.value| == 1
  }

  /** The error names the key of the unsupported expression, and says whether its operator or the number of
      its values is at fault. */
  predicate Rejects(r: Requirement, error: BuildError) {
    match error
    case UnsupportedOperator(operator, key) => r.operator != "In" && operator == r.operator && key == r.key
    case NotOneValue(key) => r.operator == "In" && (r.values.None? || |r.values.value| != 1) && key == r.key
    case NoUsableConstraint => false
  }

  predicate Buildable(selector: LabelSelector) {
    && (forall i | 0 <= i < |Expressions(selector)| :: SingleIn(Expressions(selector)[i]))
    && (Labels(selector) != [] || Expressions(selector) != [])
  }

  function PairOf(r: Requirement): Pair
    requires SingleIn(r)
  {
    (r.key, r.values.value[0])
  }

  /** Every constraint of a buildable selector, in the order it is printed. */
  function Required(selector: LabelSelector): (pairs: seq<Pair>)
    requires Buildable(selector)
    ensures |pairs| == |Labels(selector)| + |Expressions(selector)| && Labels(selector) <= pairs
    ensures forall i | 0 <= i < |Expressions(selector)| ::
      pairs[|Labels(selector)| + i] == (Expressions(selector)[i].key, Expressions(selector)[i].values.value[0])
  {
    var es := Expressions(selector);
    Labels(selector) + seq(|es|, i requires 0 <= i < |es| && SingleIn(es[i]) => PairOf(es[i]))
  }

  function PrintAll(pairs: seq<Pair>): (parts: seq<string>)
    ensures |parts| == |pairs| && forall i | 0 <= i < |pairs| :: parts[i] == Print(pairs[i])
  {
    seq(|pairs|, i requires 0 <= i < |pairs| => Print(pairs[i]))
  }

  /** build_label_selector_string. */
  method BuildLabelSelectorString(selector: LabelSelector) returns (r: Result<string, BuildError>)
    ensures r.Success? <==>
      && (forall i | 0 <= i < |Expressions(selector)| ::
            var e := Expressions(selector)[i]; e.operator == "In" && e.values.Some? && |e.values.value| == 1)
      && (Labels(selector) != [] || Expressions(selector) != [])
    ensures r.Success? ==> Buildable(selector) && r.value == Join(PrintAll(Required(selector)))
    ensures r == Failure(NoUsableConstraint) <==> Labels(selector) == [] && Expressions(selector) == []
    ensures r.Failure? && r.error != NoUsableConstraint ==>
      exists i | 0 <= i < |Expressions(selector)| ::
        && Rejects(Expressions(selector)[i], r.error)
        && forall j | 0 <= j < i :: SingleIn(Expressions(selector)[j])
  {
    var parts: seq<string> := [];
    var labels, expressions := Labels(selector), Expressions(selector);
    for i := 0 to |labels|
      invariant parts == PrintAll(labels[..i])
    {
      parts := parts + [Print(labels[i])];
    }
    assert labels[..|labels|] == labels;
    for i := 0 to |expressions|
      invariant |parts| == |labels| + i
      invariant forall j | 0 <= j < i :: SingleIn(expressions[j])
      invariant forall j | 0 <= j < |labels| :: parts[j] == Print(labels[j])
      invariant forall j | 0 <= j < i ::
        parts[|labels| + j] == Print(PairOf(expressions[j]))
    {
      var e := expressions[i];
      if e.operator == "In" {
        if e.values.None? || |e.values.value| != 1 {
          return Failure(NotOneValue(e.key));
        }
        parts := parts + [Print((e.key, e.values.value[0]))];
      } else {
        return Failure(UnsupportedOperator(e.operator, e.key));
      }
    }
    if parts == [] {
      return Failure(NoUsableConstraint);
    }
    assert parts == PrintAll(Required(selector));
    return Success(Join(parts));
  }

  // ---- parsing ----

  /** The white space `str::trim` strips. */
  predicate IsSpace(c: char) {
    var n := c as int;
    || 0x09 <= n <= 0x0D || n == 0x20 || n == 0x85 || n == 0xA0 || n == 0x1680 || 0x2000 <= n <= 0x200A
    || n == 0x2028 || n == 0x2029 || n == 0x202F || n == 0x205F || n == 0x3000
  }

  function TrimStart(s: string): string {
    if s != [] && IsSpace(s[0]) then TrimStart(s[1..]) else s
  }

  function TrimEnd(s: string): string {
    if s != [] && IsSpace(s[|s| - 1]) then TrimEnd(s[..|s| - 1]) else s
  }

  function Trim(s: string): string {
    TrimEnd(TrimStart(s))
  }

  function IndexOf(s: string, c: char): (r: Option<nat>)
    ensures r == None <==> c !in s
    ensures r.Some? ==> r.value < |s| && s[r.value] == c && forall j | 0 <= j < r.value :: s[j] != c
  {
    if s == [] then None
    else if s[0] == c then Some(0)
    else
      assert s == [s[0]] + s[1..];
      match IndexOf(s[1..], c)
      case None => None
      case Some(i) => Some(i + 1)
  }

  function Split(s: string, c: char): (parts: seq<string>)
    ensures parts != [] && forall p | p in parts :: c !in p
    decreases |s|
  {
    match IndexOf(s, c)
    case None => [s]
    case Some(i) => [s[..i]] + Split(s[i + 1..], c)
  }

  function ParsePair(part: string): Option<Pair> {
    match IndexOf(part, '=')
    case None => None
    case Some(i) =>
      var key := Trim(part[..i]);
      if key == "" then None else Some((key, Trim(part[i + 1..])))
  }

  function ParsePairs(parts: seq<string>): seq<Pair> {
    if parts == [] then []
    else
      var rest := ParsePairs(parts[1..]);
      match ParsePair(parts[0])
      case None => rest
      case Some(pair) => [pair] + rest
  }

  /** parse_label_selector. */
  function ParseLabelSelector(selector: string): seq<Pair> {
    if selector == "" then [] else ParsePairs(Split(selector, ','))
  }

  /** pod_matches_selector, on the labels of the pod. */
  predicate PodMatches(labels: Option<map<string, string>>, pairs: seq<Pair>) {
    if pairs == [] then true
    else labels.Some? && forall p | p in pairs :: p.0 in labels.value && labels.value[p.0] == p.1
  }

  // ---- the round trip ----

  predicate Trimmed(s: string) {
    s == "" || (!IsSpace(s[0]) && !IsSpace(s[|s| - 1]))
  }

  /** Label syntax, as far as the codec needs it. */
  predicate Clean(p: Pair) {
    && p.0 != "" && '=' !in p.0 && ',' !in p.0 && ',' !in p.1
    && Trimmed(p.0) && Trimmed(p.1)
  }

  lemma FirstIndexIs(s: string, c: char, i: nat)
    requires i < |s| && s[i] == c && c !in s[..i]
    ensures IndexOf(s, c) == Some(i)
  {
    forall j | 0 <= j < i ensures s[j] != c {
      assert s[j] in s[..i];
    }
  }

  lemma SplitFirst(s: string, rest: string, c: char)
    requires c !in s
    ensures Split(s + [c] + rest, c) == [s] + Split(rest, c)
    ensures Split(s, c) == [s]
  {
    var whole := s + [c] + rest;
    assert whole[..|s|] == s && whole[|s| + 1..] == rest;
    FirstIndexIs(whole, c, |s|);
  }

  lemma {:induction false} SplitUndoesJoin(parts: seq<string>)
    requires parts != [] && forall p | p in parts :: ',' !in p
    ensures Split(Join(parts), ',') == parts
  {
    SplitFirst(parts[0], Join(parts[1..]), ',');
    if |parts| > 1 {
      SplitUndoesJoin(parts[1..]);
      assert parts == [parts[0]] + parts[1..];
    }
  }

  lemma ParsePairUndoesPrint(p: Pair)
    requires Clean(p)
    ensures ParsePair(Print(p)) == Some(p) && ',' !in Print(p)
  {
    var s := Print(p);
    assert s[..|p.0|] == p.0 && s[|p.0| + 1..] == p.1;
    FirstIndexIs(s, '=', |p.0|);
  }

  ghost predicate AllClean(pairs: seq<Pair>) {
    forall i | 0 <= i < |pairs| :: Clean(pairs[i])
  }

  lemma {:induction false} ParsePairsUndoesPrint(pairs: seq<Pair>)
    requires AllClean(pairs)
    ensures ParsePairs(PrintAll(pairs)) == pairs
  {
    if pairs != [] {
      ParsePairUndoesPrint(pairs[0]);
      ParsePairsUndoesPrint(pairs[1..]);
      assert PrintAll(pairs)[1..] == PrintAll(pairs[1..]);
    }
  }

  lemma ParseUndoesPrint(pairs: seq<Pair>)
    requires AllClean(pairs)
    ensures ParseLabelSelector(Join(PrintAll(pairs))) == pairs
  {
    var parts := PrintAll(pairs);
    if pairs != [] {
      forall p | p in parts ensures ',' !in p {
        var i :| 0 <= i < |parts| && parts[i] == p;
        ParsePairUndoesPrint(pairs[i]);
      }
      SplitUndoesJoin(parts);
      assert '=' in parts[0];
      ParsePairsUndoesPrint(pairs);
    }
  }

  lemma {:induction false} TrimEndKeeps(s: string)
    ensures TrimEnd(s) <= s
    ensures TrimEnd(s) == "" || !IsSpace(TrimEnd(s)[|TrimEnd(s)| - 1])
  {
    if s != [] && IsSpace(s[|s| - 1]) { TrimEndKeeps(s[..|s| - 1]); }
  }

  lemma {:induction false} TrimStartKeeps(s: string)
    ensures forall c | c in TrimStart(s) :: c in s
    ensures TrimStart(s) == "" || !IsSpace(TrimStart(s)[0])
  {
    if s != [] && IsSpace(s[0]) {
      TrimStartKeeps(s[1..]);
      assert s == [s[0]] + s[1..];
    }
  }

  lemma TrimTrims(s: string)
    ensures Trimmed(Trim(s)) && forall c | c in Trim(s) :: c in s
  {
    TrimStartKeeps(s);
    TrimEndKeeps(TrimStart(s));
  }

  lemma ParsedPairIsClean(part: string)
    requires ',' !in part && ParsePair(part).Some?
    ensures Clean(ParsePair(part).value)
  {
    var i := IndexOf(part, '=').value;
    TrimTrims(part[..i]);
    TrimTrims(part[i + 1..]);
    assert '=' !in part[..i];
  }

  lemma {:induction false} ParsedPairsAreClean(parts: seq<string>)
    requires forall i | 0 <= i < |parts| :: ',' !in parts[i]
    ensures AllClean(ParsePairs(parts))
  {
    if parts != [] {
      ParsedPairsAreClean(parts[1..]);
      if ParsePair(parts[0]).Some? { ParsedPairIsClean(parts[0]); }
    }
  }

  // ---- parsing anything else ----

  ghost predicate Blank(s: string) {
    forall c | c in s :: IsSpace(c)
  }

  lemma {:induction false} TrimStartDropsBlank(pad: string, s: string)
    requires Blank(pad) && (s == "" || !IsSpace(s[0]))
    ensures TrimStart(pad + s) == s
  {
    if pad == "" {
      assert pad + s == s;
    } else {
      assert pad == [pad[0]] + pad[1..];
      TrimStartDropsBlank(pad[1..], s);
      assert (pad + s)[1..] == pad[1..] + s;
    }
  }

  lemma {:induction false} TrimEndDropsBlank(s: string, pad: string)
    requires Blank(pad) && (s == "" || !IsSpace(s[|s| - 1]))
    ensures TrimEnd(s + pad) == s
  {
    if pad == "" {
      assert s + pad == s;
    } else {
      var n := |pad| - 1;
      assert pad == pad[..n] + [pad[n]];
      TrimEndDropsBlank(s, pad[..n]);
      assert (s + pad)[..|s + pad| - 1] == s + pad[..n];
    }
  }

  lemma TrimDropsBlank(before: string, s: string, after: string)
    requires Blank(before) && Blank(after) && s != "" && Trimmed(s)
    ensures Trim(before + s + after) == s
  {
    assert before + s + after == before + (s + after);
    TrimStartDropsBlank(before, s + after);
    TrimEndDropsBlank(s, after);
  }

  /** Surrounding space does not matter: neither around the key nor around the value. */
  lemma PaddingIsIgnored(p: Pair, a: string, b: string, c: string, d: string)
    requires Clean(p) && p.1 != "" && Blank(a) && Blank(b) && Blank(c) && Blank(d)
    ensures ParsePair(a + p.0 + b + "=" + (c + p.1 + d)) == Some(p)
  {
    assert !IsSpace('=');
    var left, part := a + p.0 + b, a + p.0 + b + "=" + (c + p.1 + d);
    assert part[..|left|] == left && part[|left| + 1..] == c + p.1 + d;
    FirstIndexIs(part, '=', |left|);
    TrimDropsBlank(a, p.0, b);
    TrimDropsBlank(c, p.1, d);
  }

  /** A part without '=', or with nothing but space before it, is skipped. */
  lemma UnparsablePart(part: string)
    ensures ParsePair(part) == None <==>
      '=' !in part || exists i :: 0 <= i < |part| && part[i] == '=' && Blank(part[..i])
  {
    assert !IsSpace('=');
    var i := IndexOf(part, '=');
    if i.Some? {
      BlankIffTrimmedAway(part[..i.value]);
      forall j | i.value < j < |part| ensures !Blank(part[..j]) {
        assert part[..j][i.value] in part[..j];
      }
    }
  }

  lemma BlankIffTrimmedAway(s: string)
    ensures Trim(s) == "" <==> Blank(s)
  {
    if Blank(s) {
      TrimStartDropsBlank(s, "");
      assert s + "" == s;
    } else {
      KeepsWhatIsNotSpace(s);
    }
  }

  lemma {:induction false} KeepsWhatIsNotSpace(s: string)
    requires !Blank(s)
    ensures Trim(s) != ""
  {
    if IsSpace(s[0]) {
      assert s == [s[0]] + s[1..];
      KeepsWhatIsNotSpace(s[1..]);
    } else {
      EndKeepsStart(s);
    }
  }

  lemma {:induction false} EndKeepsStart(s: string)
    requires s != "" && !IsSpace(s[0])
    ensures TrimEnd(s) != ""
  {
    if IsSpace(s[|s| - 1]) {
      EndKeepsStart(s[..|s| - 1]);
    }
  }

  lemma {:induction false} PartsParseOneByOne(parts: seq<string>, part: string)
    ensures ParsePairs(parts + [part]) ==
      match ParsePair(part)
      case None => ParsePairs(parts)
      case Some(p) => ParsePairs(parts) + [p]
  {
    assert [part][1..] == [];
    if parts != [] {
      PartsParseOneByOne(parts[1..], part);
      assert (parts + [part])[1..] == parts[1..] + [part];
    } else {
      assert parts + [part] == [part];
    }
  }

  /** A selector string is read part by part. */
  lemma SelectorIsReadByParts(parts: seq<string>)
    requires parts != [] && forall p | p in parts :: ',' !in p
    ensures ParseLabelSelector(Join(parts)) == ParsePairs(parts)
  {
    SplitUndoesJoin(parts);
    if Join(parts) == "" {
      SplitFirst("", "", ',');
      assert parts == [""];
      assert IndexOf("", '=') == None;
      assert parts[1..] == [];
    }
  }

  // ---- exactly what round-trips ----

  /** The codec round-trips exactly the pairs of label syntax. */
  lemma RoundTripIffClean(pairs: seq<Pair>)
    ensures ParseLabelSelector(Join(PrintAll(pairs))) == pairs <==> AllClean(pairs)
  {
    if AllClean(pairs) {
      ParseUndoesPrint(pairs);
    } else {
      var s := Join(PrintAll(pairs));
      if s != "" {
        var parts := Split(s, ',');
        forall i | 0 <= i < |parts| ensures ',' !in parts[i] { assert parts[i] in parts; }
        ParsedPairsAreClean(parts);
      }
    }
  }

  // ---- the meaning of the selector ----

  predicate HasLabel(labels: Option<map<string, string>>, key: string, values: seq<string>) {
    labels.Some? && key in labels.value && labels.value[key] in values
  }

  /** A pod meets the original selector: every matchLabels pair and every In requirement. */
  ghost predicate Accepts(selector: LabelSelector, labels: Option<map<string, string>>) {
    && (forall i | 0 <= i < |Labels(selector)| :: HasLabel(labels, Labels(selector)[i].0, [Labels(selector)[i].1]))
    && (forall i | 0 <= i < |Expressions(selector)| && Expressions(selector)[i].values.Some? ::
          HasLabel(labels, Expressions(selector)[i].key, Expressions(selector)[i].values.value))
  }

  predicate HasPair(labels: Option<map<string, string>>, p: Pair) {
    HasLabel(labels, p.0, [p.1])
  }

  lemma MatchesByIndex(labels: Option<map<string, string>>, pairs: seq<Pair>)
    ensures PodMatches(labels, pairs) <==> forall j | 0 <= j < |pairs| :: HasPair(labels, pairs[j])
  {
    if PodMatches(labels, pairs) {
      forall j | 0 <= j < |pairs| ensures HasPair(labels, pairs[j]) {
        assert pairs[j] in pairs;
      }
    } else if labels.None? && pairs != [] {
      assert !HasPair(labels, pairs[0]);
    }
  }

  lemma RequiredMeansSelector(selector: LabelSelector, labels: Option<map<string, string>>)
    requires Buildable(selector)
    ensures var pairs := Required(selector);
      (forall j | 0 <= j < |pairs| :: HasPair(labels, pairs[j])) <==> Accepts(selector, labels)
  {
    var pairs, ls, es := Required(selector), Labels(selector), Expressions(selector);
    forall i | 0 <= i < |ls| ensures pairs[i] == ls[i] {}
    forall i | 0 <= i < |es|
      ensures HasPair(labels, pairs[|ls| + i]) <==> HasLabel(labels, es[i].key, es[i].values.value)
    {
      assert es[i].values.value == [pairs[|ls| + i].1];
    }
    if Accepts(selector, labels) {
      forall j | 0 <= j < |pairs| ensures HasPair(labels, pairs[j]) {
        if j >= |ls| { assert HasLabel(labels, es[j - |ls|].key, es[j - |ls|].values.value); }
      }
    }
  }

  /** Printing a selector and parsing it back keeps its meaning for every pod. */
  lemma TranslationKeepsMeaning(selector: LabelSelector, labels: Option<map<string, string>>)
    requires Buildable(selector) && AllClean(Required(selector))
    ensures PodMatches(labels, ParseLabelSelector(Join(PrintAll(Required(selector))))) <==> Accepts(selector, labels)
  {
    ParseUndoesPrint(Required(selector));
    MatchesByIndex(labels, Required(selector));
    RequiredMeansSelector(selector, labels);
  }
}
