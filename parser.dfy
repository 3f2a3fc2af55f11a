/** `parse_text_file` and `extract_weight`: the scenario text format read into a graph,
    the depot list and the battery capacity. The three scripts share `parse_text_file`
    word for word; their `extract_weight` comes in two behaviours, `WeightRule` below.
    Python's `float()` is the parameter `parseFloat`; `int()` is `Strings.ParseInt`. */
module ScenarioParser {
  import opened Wrappers
  import opened Strings
  import opened Graphs

  /** How `extract_weight` cuts out the text it hands to `float()`. */
  datatype WeightRule =
    | BetweenMarkers  // `text.split(marker)[1]`: up to a second occurrence of the marker
    | AfterMarker     // `text.strip().split(marker, 1)[1]`: the rest of the line

  /** The piece of `t` that follows the first `marker`, cut as `rule` says. */
  function MarkerPiece(rule: WeightRule, t: string, marker: string): (r: Option<string>)
    requires |marker| > 0
    ensures r.Some? <==> Contains(t, marker)
  {
    match rule
    case BetweenMarkers => SecondPiece(t, marker)
    case AfterMarker => Remainder(t, marker)
  }

  /** The text `extract_weight` searches: the maxsplit-1 variant strips it first. */
  function Searched(rule: WeightRule, text: string): string {
    if rule == AfterMarker then Strip(text) else text
  }

  /** The text `extract_weight` passes to `float()`, `None` when it falls back to 1.0
      without parsing ("edge weight" is looked for first, then "cost"). */
  function WeightText(rule: WeightRule, text: string): (r: Option<string>)
  {
    var t := Searched(rule, text);
    if Contains(t, "edge weight") then Some(Strip(MarkerPiece(rule, t, "edge weight").value))
    else if Contains(t, "cost") then Some(Strip(MarkerPiece(rule, t, "cost").value))
    else None
  }

  /** `extract_weight(text)`: the number `float()` reads from the text cut after the marker
      when there is one and it converts; 1.0 otherwise. */
  function ExtractWeight(rule: WeightRule, text: string, parseFloat: string -> Option<real>): (r: real)
    ensures WeightText(rule, text).Some? && parseFloat(WeightText(rule, text).value).Some? ==>
      r == parseFloat(WeightText(rule, text).value).value
    ensures WeightText(rule, text).None? || parseFloat(WeightText(rule, text).value).None? ==> r == 1.0
  {
    match WeightText(rule, text)
    case None => 1.0
    case Some(w) => parseFloat(w).GetOr(1.0)
  }

  /** Both markers start and end with a non-blank character. */
  lemma MarkerEnds()
    ensures var ew := "edge weight"; |ew| > 0 && !IsSpace(ew[0]) && !IsSpace(ew[|ew| - 1])
    ensures var co := "cost"; |co| > 0 && !IsSpace(co[0]) && !IsSpace(co[|co| - 1])
  {
    var ew, co := "edge weight", "cost";
    assert ew[0] == 'e' && ew[|ew| - 1] == 't' && co[0] == 'c' && co[|co| - 1] == 't';
  }

  /** Stripping the text first changes neither whether a marker is found nor the stripped
      piece cut after it. */
  lemma SearchedPiece(rule: WeightRule, text: string, m: string)
    requires |m| > 0 && !IsSpace(m[0]) && !IsSpace(m[|m| - 1])
    ensures Contains(Searched(rule, text), m) <==> Contains(text, m)
    ensures Contains(text, m) ==>
      Strip(MarkerPiece(rule, Searched(rule, text), m).value) == Strip(MarkerPiece(rule, text, m).value)
  {
    if rule == AfterMarker {
      ContainsStripped(text, m);
      if Contains(text, m) {
        StripBeforeRemainder(text, m);
      }
    }
  }

  /** With "edge weight" present, its piece is the text handed to `float()`, whatever else
      the annotation holds. */
  lemma EdgeWeightText(rule: WeightRule, text: string)
    requires Contains(text, "edge weight")
    ensures WeightText(rule, text) == Some(Strip(MarkerPiece(rule, text, "edge weight").value))
  {
    MarkerEnds();
    SearchedPiece(rule, text, "edge weight");
  }

  /** With only "cost" present, its piece is the text handed to `float()`. */
  lemma CostText(rule: WeightRule, text: string)
    requires !Contains(text, "edge weight") && Contains(text, "cost")
    ensures WeightText(rule, text) == Some(Strip(MarkerPiece(rule, text, "cost").value))
  {
    MarkerEnds();
    SearchedPiece(rule, text, "edge weight");
    SearchedPiece(rule, text, "cost");
  }

  /** "edge weight" is looked for before "cost": when present it decides the weight, in both
      variants (`split(m)[1]` for one, `split(m, 1)[1]` of the raw text for the other). */
  lemma EdgeWeightBeforeCost(rule: WeightRule, text: string, parseFloat: string -> Option<real>)
    requires Contains(text, "edge weight")
    ensures ExtractWeight(rule, text, parseFloat)
      == parseFloat(Strip(MarkerPiece(rule, text, "edge weight").value)).GetOr(1.0)
  {
    EdgeWeightText(rule, text);
  }

  /** Without "edge weight", a "cost" marker decides the weight, in both variants. */
  lemma CostWeight(rule: WeightRule, text: string, parseFloat: string -> Option<real>)
    requires !Contains(text, "edge weight") && Contains(text, "cost")
    ensures ExtractWeight(rule, text, parseFloat)
      == parseFloat(Strip(MarkerPiece(rule, text, "cost").value)).GetOr(1.0)
  {
    CostText(rule, text);
  }

  /** Without either marker the weight is 1.0, whatever the variant. */
  lemma NoMarkerDefaultWeight(rule: WeightRule, text: string, parseFloat: string -> Option<real>)
    requires !Contains(text, "edge weight") && !Contains(text, "cost")
    ensures ExtractWeight(rule, text, parseFloat) == 1.0
  {
    if rule == AfterMarker {
      ContainsStripped(text, "edge weight");
      ContainsStripped(text, "cost");
    }
  }

  /** A marker that starts and ends with a non-blank occurs in `s` exactly when it occurs in
      `s.strip()`, at the position shifted by what `strip()` cut. */
  lemma ContainsStripped(s: string, m: string)
    requires |m| > 0 && !IsSpace(m[0]) && !IsSpace(m[|m| - 1])
    ensures Contains(Strip(s), m) <==> Contains(s, m)
    ensures Contains(s, m) ==> IndexOf(s, m).value == StripStart(s) + IndexOf(Strip(s), m).value
  {
    OccurrencesOfStripped(s, m);
    OccurrencesInStripped(s, m);
    if Contains(s, m) {
      var i := IndexOf(s, m).value;
      assert OccursAt(Strip(s), m, i - StripStart(s));
    }
  }

  lemma OccurrencesOfStripped(s: string, m: string)
    ensures forall j :: OccursAt(Strip(s), m, j) ==> OccursAt(s, m, StripStart(s) + j)
  {
    var t := Strip(s);
    var a := StripStart(s);
    forall j | OccursAt(t, m, j) ensures OccursAt(s, m, a + j) {
      OccursInSlice(s, a, a + |t|, m, a + j);
    }
  }

  lemma OccurrencesInStripped(s: string, m: string)
    requires |m| > 0 && !IsSpace(m[0]) && !IsSpace(m[|m| - 1])
    ensures forall j :: OccursAt(s, m, j) ==> StripStart(s) <= j && OccursAt(Strip(s), m, j - StripStart(s))
  {
    var t := Strip(s);
    var a := StripStart(s);
    forall j | OccursAt(s, m, j) ensures a <= j && OccursAt(t, m, j - a) {
      OccurrenceInsideStrip(s, m, j);
      OccursInSlice(s, a, a + |t|, m, j);
    }
  }

  /** An occurrence inside a slice is an occurrence in the whole string, shifted. */
  lemma OccursInSlice(s: string, lo: int, hi: int, m: string, j: int)
    requires 0 <= lo <= j && j + |m| <= hi <= |s|
    ensures OccursAt(s[lo..hi], m, j - lo) <==> OccursAt(s, m, j)
  {
    forall k | j <= k < j + |m| ensures s[lo..hi][k - lo] == s[k] {}
    assert s[lo..hi][j - lo..j - lo + |m|] == s[j..j + |m|];
  }

  /** A marker with non-blank ends cannot overlap what `strip()` cuts off. */
  lemma OccurrenceInsideStrip(s: string, m: string, j: int)
    requires |m| > 0 && !IsSpace(m[0]) && !IsSpace(m[|m| - 1])
    requires OccursAt(s, m, j)
    ensures StripStart(s) <= j && j + |m| <= StripStart(s) + |Strip(s)|
  {
    assert s[j..j + |m|][0] == s[j];
    assert s[j..j + |m|][|m| - 1] == s[j + |m| - 1];
  }

  /** The leading `strip()` of the maxsplit-1 variant changes nothing: stripping the text
      first gives the same cut as cutting the raw text. */
  lemma StripBeforeRemainder(s: string, m: string)
    requires |m| > 0 && !IsSpace(m[0]) && !IsSpace(m[|m| - 1])
    requires Contains(s, m)
    ensures Contains(Strip(s), m)
    ensures Strip(Remainder(Strip(s), m).value) == Strip(Remainder(s, m).value)
  {
    var a, t, i := StripStart(s), Strip(s), IndexOf(s, m).value;
    ContainsStripped(s, m);
    OccurrenceInsideStrip(s, m, i);
    var p := i + |m|;
    assert Remainder(t, m).value == t[p - a..];
    assert Remainder(s, m).value == s[p..];
    CutAfterStrip(s, a, |t|, p, t);
  }

  /** Cutting the stripped text at `p` and cutting the raw text at `p` leave texts that
      differ only by trailing whitespace. */
  lemma CutAfterStrip(s: string, a: nat, n: nat, p: nat, t: string)
    requires a <= p <= a + n <= |s| && t == s[a..a + n]
    requires forall j :: a + n <= j < |s| ==> IsSpace(s[j])
    ensures Strip(t[p - a..]) == Strip(s[p..])
  {
    var w := s[a + n..];
    forall j | 0 <= j < |w|
      ensures IsSpace(w[j])
    {
      assert w[j] == s[a + n + j];
    }
    SliceSplit(s, a, n, p);
    TrailingBlanks(s[p..a + n], w);
  }

  /** Cutting a slice `s[a..a + n]` at `p` and cutting `s` itself at `p` differ by the tail
      `s[a + n..]`. */
  lemma SliceSplit(s: string, a: nat, n: nat, p: nat)
    requires a <= p <= a + n <= |s|
    ensures s[a..a + n][p - a..] == s[p..a + n]
    ensures s[p..] == s[p..a + n] + s[a + n..]
  {}

  /** Appending only whitespace does not change what `strip()` returns. */
  lemma TrailingBlanks(x: string, w: string)
    requires forall j :: 0 <= j < |w| ==> IsSpace(w[j])
    ensures Strip(x + w) == Strip(x)
  {
    BlanksAfterCut(x, w, StripStart(x), StripStart(x) + |Strip(x)|);
  }

  /** The cut `strip()` makes in `x` is also the cut it makes in `x + w`. */
  lemma BlanksAfterCut(x: string, w: string, a: nat, e: nat)
    requires a <= e <= |x|
    requires forall k :: 0 <= k < a ==> IsSpace(x[k])
    requires forall k :: e <= k < |x| ==> IsSpace(x[k])
    requires a == e || (!IsSpace(x[a]) && !IsSpace(x[e - 1]))
    requires forall j :: 0 <= j < |w| ==> IsSpace(w[j])
    ensures Strip(x + w) == x[a..e]
  {
    var s := x + w;
    forall k | 0 <= k < a
      ensures IsSpace(s[k])
    {
      assert s[k] == x[k];
    }
    forall k | e <= k < |s|
      ensures IsSpace(s[k])
    {
      if k >= |x| {
        assert s[k] == w[k - |x|];
      } else {
        assert s[k] == x[k];
      }
    }
    if a < e {
      assert s[a] == x[a] && s[e - 1] == x[e - 1];
    }
    StripAt(s, a, e);
    assert s[a..e] == x[a..e];
  }
  /** For one marker that occurs once: cutting up to a second occurrence and cutting off
      the rest of the stripped line give the same stripped text. */
  lemma SingleMarkerSameText(text: string, m: string)
    requires |m| > 0 && !IsSpace(m[0]) && !IsSpace(m[|m| - 1])
    requires Contains(text, m)
    requires !Contains(text[IndexOf(text, m).value + |m|..], m)
    ensures Contains(Strip(text), m)
    ensures Strip(MarkerPiece(BetweenMarkers, text, m).value)
      == Strip(MarkerPiece(AfterMarker, Strip(text), m).value)
  {
    SingleMarkerPiece(text, m);
    StripBeforeRemainder(text, m);
  }

  /** When the chosen marker occurs only once, the two variants hand `float()` the same text. */
  lemma WeightRulesAgreeOnSingleMarker(text: string)
    requires Contains(text, "edge weight") ==>
      !Contains(text[IndexOf(text, "edge weight").value + 11..], "edge weight")
    requires (!Contains(text, "edge weight") && Contains(text, "cost")) ==>
      !Contains(text[IndexOf(text, "cost").value + 4..], "cost")
    ensures WeightText(BetweenMarkers, text) == WeightText(AfterMarker, text)
  {
    var ew, co := "edge weight", "cost";
    assert ew[0] == 'e' && ew[|ew| - 1] == 't' && co[0] == 'c' && co[|co| - 1] == 't';
    ContainsStripped(text, ew);
    ContainsStripped(text, co);
    if Contains(text, ew) {
      SingleMarkerSameText(text, ew);
    } else if Contains(text, co) {
      SingleMarkerSameText(text, co);
    }
  }

  lemma SingleMarkerPiece(s: string, m: string)
    requires |m| > 0 && Contains(s, m)
    requires !Contains(s[IndexOf(s, m).value + |m|..], m)
    ensures SecondPiece(s, m) == Remainder(s, m)
  {}

  /** The variants differ when the marker is repeated: the first stops at the second
      occurrence, the second keeps the rest of the line. */
  lemma WeightRulesDifferOnRepeatedMarker()
    ensures WeightText(BetweenMarkers, "cost1cost2") == Some("1")
    ensures WeightText(AfterMarker, "cost1cost2") == Some("1cost2")
  {
    RepeatedMarkerBetween();
    RepeatedMarkerAfter();
  }

  lemma RepeatedMarkerFound(s: string)
    requires s == "cost1cost2"
    ensures !Contains(s, "edge weight") && IndexOf(s, "cost") == Some(0)
  {
    assert IndexOf(s, "edge weight") == None;
    assert s[0..4] == "cost";
  }

  lemma RepeatedMarkerBetween()
    ensures WeightText(BetweenMarkers, "cost1cost2") == Some("1")
  {
    var s := "cost1cost2";
    RepeatedMarkerFound(s);
    var rest := s[4..];
    assert rest == "1cost2";
    assert rest[0..4][0] == '1';
    assert rest[1..5] == "cost";
    assert IndexOfFrom(rest, "cost", 1) == Some(1);
    assert IndexOf(rest, "cost") == Some(1);
    assert rest[..1] == "1";
    assert SecondPiece(s, "cost") == Some("1");
    StripUnchanged("1");
  }

  lemma RepeatedMarkerAfter()
    ensures WeightText(AfterMarker, "cost1cost2") == Some("1cost2")
  {
    var s := "cost1cost2";
    RepeatedMarkerStripped();
    RepeatedMarkerFound(s);
    CostText(AfterMarker, s);
    RepeatedMarkerTail();
  }

  lemma RepeatedMarkerStripped()
    ensures Strip("cost1cost2") == "cost1cost2" && Strip("1cost2") == "1cost2"
  {
    StripUnchanged("cost1cost2");
    StripUnchanged("1cost2");
  }

  lemma RepeatedMarkerTail()
    ensures "cost1cost2"[4..] == "1cost2"
  {}

  /** The section marker most recently seen (`current_section`). */
  datatype Section = NoSection | RequiredEdges | NonRequiredEdges | FailureScenario

  /** What the parser has built so far. */
  datatype ParseState = ParseState(section: Section, graph: Graph, depots: seq<int>, capacity: Option<real>)

  /** `MissingCapacity` is the ValueError raised after the loop; `BadLine` stands for every
      exception a line raises (a failed `int()`/`float()`, a missing `:` or `) `). */
  datatype ParseError = MissingCapacity | BadLine(text: string)

  /** What `parse_text_file` returns: `(G, depots, battery_capacity)`. */
  datatype Scenario = Scenario(graph: Graph, depots: seq<int>, capacity: real)

  const Start := ParseState(NoSection, EmptyGraph, [], None)

  /** `[int(x.strip()) for x in pieces]`. */
  function ParseIntList(pieces: seq<string>): (r: Option<seq<int>>)
    ensures r.Some? ==> (|r.value| == |pieces| &&
      forall i :: 0 <= i < |pieces| ==> ParseInt(Strip(pieces[i])) == Some(r.value[i]))
    ensures r.None? ==> exists i :: 0 <= i < |pieces| && ParseInt(Strip(pieces[i])).None?
  {
    if pieces == [] then Some([])
    else match ParseInt(Strip(pieces[0]))
      case None => None
      case Some(x) =>
        match ParseIntList(pieces[1..])
        case None => None
        case Some(xs) => Some([x] + xs)
  }

  /** The depot list of a stripped `DEPOT:` line: `[int(x.strip()) for x in rest.split(',')]`
      where `rest` is the stripped text after the first colon. */
  function ParseDepots(line: string): Option<seq<int>> {
    match Remainder(line, ":")
    case None => None
    case Some(rest) => ParseIntList(SplitOn(Strip(rest), ','))
  }

  /** `int(line.split(':')[1].strip())`. */
  function HeaderInt(line: string): Option<int> {
    match SecondPiece(line, ":")
    case None => None
    case Some(v) => ParseInt(Strip(v))
  }

  /** `float(line.split(':')[1].strip())`. */
  function HeaderReal(line: string, parseFloat: string -> Option<real>): Option<real> {
    match SecondPiece(line, ":")
    case None => None
    case Some(v) => parseFloat(Strip(v))
  }

  /** An edge line `(u,v) annotation`: `u_v, rest = line.split(') ', 1)`, then
      `u, v = map(int, u_v.strip('(').split(','))`. */
  function ParseEdgeLine(line: string): (r: Option<(int, int, string)>)
    ensures r.Some? ==> Contains(line, ") ")
  {
    match SplitOnce(line, ") ")
    case None => None
    case Some(parts) =>
      var uv := SplitOn(StripChar(parts.0, '('), ',');
      if |uv| != 2 then None
      else match (ParseInt(uv[0]), ParseInt(uv[1]))
        case (Some(u), Some(v)) => Some((u, v, parts.1))
        case _ => None
  }

  /** The text of a number as `str` writes it: digits and a minus sign. */
  predicate NumeralText(w: string) {
    w != [] && IsDigit(w[|w| - 1]) && forall i :: 0 <= i < |w| ==> IsDigit(w[i]) || w[i] == '-'
  }

  /** `split(') ', 1)` of `x + ") " + rest` cuts at the `) ` after `x` when `x` has no `)`. */
  lemma SplitAfterPair(x: string, rest: string)
    requires forall j :: 0 <= j < |x| ==> x[j] != ')'
    ensures SplitOnce(x + ") " + rest, ") ") == Some((x, rest))
  {
    var line := x + ") " + rest;
    assert line[..|x|] == x;
    assert line[|x|..|x| + 2] == ") ";
    FirstOccurrence(line, ") ", |x|);
    assert line[|x| + 2..] == rest;
  }

  /** `"(U,V".strip('(').split(',')` gives back the two numerals. */
  lemma PairPieces(U: string, V: string)
    requires NumeralText(U) && NumeralText(V)
    ensures SplitOn(StripChar(['('] + (U + [','] + V), '('), ',') == [U, V]
  {
    var y := U + [','] + V;
    assert y[0] == U[0] && y[|y| - 1] == V[|V| - 1];
    StripCharAfterLead(y, '(');
    assert Join([U, V], ',') == y;
    assert ',' !in U && ',' !in V by {
      forall ch | ch in U ensures ch != ',' {
        var j :| 0 <= j < |U| && U[j] == ch;
      }
      forall ch | ch in V ensures ch != ',' {
        var j :| 0 <= j < |V| && V[j] == ch;
      }
    }
    SplitJoin([U, V], ',');
  }

  /** An edge line of the instance format, `(u,v) rest` with both endpoints written in
      decimal, reads back as the pair and the rest of the line. */
  lemma EdgeLineRoundTrip(u: int, v: int, rest: string)
    ensures ParseEdgeLine("(" + IntToString(u) + "," + IntToString(v) + ") " + rest) == Some((u, v, rest))
  {
    var U, V := IntToString(u), IntToString(v);
    var x := ['('] + (U + [','] + V);
    assert "(" + U + "," + V + ") " + rest == x + ") " + rest;
    forall j | 0 <= j < |x| ensures x[j] != ')' {
      if 1 <= j <= |U| {
        assert x[j] == U[j - 1];
      } else if |U| + 1 < j {
        assert x[j] == V[j - |U| - 2];
      }
    }
    SplitAfterPair(x, rest);
    PairPieces(U, V);
    IntToStringRoundTrip(u);
    IntToStringRoundTrip(v);
  }

  /** Which test of the loop's `if`/`elif` chain a stripped line passes first. */
  datatype LineClass =
    | Blank | NameLine | VerticesLine | CapacityLine
    | RequiredMarker | NonRequiredMarker | FailureMarker | DepotsLine | OtherLine

  function LineClassOf(line: string): (c: LineClass)
    ensures c == Blank <==> line == []
    ensures c == CapacityLine ==> StartsWith(line, "VEHICLE CAPACITY")
    ensures c == DepotsLine ==> StartsWith(line, "DEPOT:")
  {
    if line == [] then Blank
    else if StartsWith(line, "NAME") then NameLine
    else if StartsWith(line, "NUMBER OF VERTICES") then VerticesLine
    else if StartsWith(line, "VEHICLE CAPACITY") then CapacityLine
    else if StartsWith(line, "LIST_REQUIRED_EDGES:") then RequiredMarker
    else if StartsWith(line, "LIST_NON_REQUIRED_EDGES:") then NonRequiredMarker
    else if StartsWith(line, "FAILURE_SCENARIO:") then FailureMarker
    else if StartsWith(line, "DEPOT:") then DepotsLine
    else OtherLine
  }

  /** Each class holds exactly when its test passes and no earlier test of the chain did. */
  lemma LineClassOfSpec(line: string)
    ensures var c := LineClassOf(line);
      && (c == Blank <==> line == [])
      && (c == NameLine <==> (line != [] && StartsWith(line, "NAME")))
      && (c == VerticesLine <==> (line != [] && !StartsWith(line, "NAME")
                                  && StartsWith(line, "NUMBER OF VERTICES")))
      && (c == CapacityLine <==> (line != [] && !StartsWith(line, "NAME")
                                  && !StartsWith(line, "NUMBER OF VERTICES")
                                  && StartsWith(line, "VEHICLE CAPACITY")))
      && (c == RequiredMarker <==> (line != [] && !StartsWith(line, "NAME")
                                    && !StartsWith(line, "NUMBER OF VERTICES")
                                    && !StartsWith(line, "VEHICLE CAPACITY")
                                    && StartsWith(line, "LIST_REQUIRED_EDGES:")))
      && (c == NonRequiredMarker <==> (line != [] && !StartsWith(line, "NAME")
                                       && !StartsWith(line, "NUMBER OF VERTICES")
                                       && !StartsWith(line, "VEHICLE CAPACITY")
                                       && !StartsWith(line, "LIST_REQUIRED_EDGES:")
                                       && StartsWith(line, "LIST_NON_REQUIRED_EDGES:")))
      && (c == FailureMarker <==> (line != [] && !StartsWith(line, "NAME")
                                   && !StartsWith(line, "NUMBER OF VERTICES")
                                   && !StartsWith(line, "VEHICLE CAPACITY")
                                   && !StartsWith(line, "LIST_REQUIRED_EDGES:")
                                   && !StartsWith(line, "LIST_NON_REQUIRED_EDGES:")
                                   && StartsWith(line, "FAILURE_SCENARIO:")))
      && (c == DepotsLine <==> (line != [] && !StartsWith(line, "NAME")
                                && !StartsWith(line, "NUMBER OF VERTICES")
                                && !StartsWith(line, "VEHICLE CAPACITY")
                                && !StartsWith(line, "LIST_REQUIRED_EDGES:")
                                && !StartsWith(line, "LIST_NON_REQUIRED_EDGES:")
                                && !StartsWith(line, "FAILURE_SCENARIO:")
                                && StartsWith(line, "DEPOT:")))
  {}

  /** One iteration of the loop on a stripped line of class `c`. */
  function StepOn(st: ParseState, line: string, c: LineClass, rule: WeightRule, parseFloat: string -> Option<real>)
    : Result<ParseState, ParseError>
  {
    match c
    case Blank => Ok(st)
    case NameLine => Ok(st)
    case VerticesLine =>
      (match HeaderInt(line)
       case None => Err(BadLine(line))
       case Some(n) => Ok(st.(graph := AddNodesFrom(st.graph, 1, n))))
    case CapacityLine =>
      (match HeaderReal(line, parseFloat)
       case None => Err(BadLine(line))
       case Some(cap) => Ok(st.(capacity := Some(cap))))
    case RequiredMarker => Ok(st.(section := RequiredEdges))
    case NonRequiredMarker => Ok(st.(section := NonRequiredEdges))
    case FailureMarker => Ok(st.(section := FailureScenario))
    case DepotsLine =>
      (match ParseDepots(line)
       case None => Err(BadLine(line))
       case Some(ds) => Ok(st.(depots := ds)))
    case OtherLine =>
      if st.section == RequiredEdges || st.section == NonRequiredEdges then
        match ParseEdgeLine(line)
        case None => Err(BadLine(line))
        case Some((u, v, rest)) =>
          var w := ExtractWeight(rule, rest, parseFloat);
          Ok(st.(graph := AddEdge(st.graph, u, v, w, st.section == RequiredEdges)))
      else Ok(st)
  }

  /** One iteration of the loop of `parse_text_file` on a raw line. */
  function Step(st: ParseState, raw: string, rule: WeightRule, parseFloat: string -> Option<real>)
    : Result<ParseState, ParseError>
  {
    var line := Strip(raw);
    StepOn(st, line, LineClassOf(line), rule, parseFloat)
  }

  /** The loop of `parse_text_file` from state `st`; the first exception ends it. */
  function ParseFrom(st: ParseState, lines: seq<string>, rule: WeightRule, parseFloat: string -> Option<real>)
    : Result<ParseState, ParseError>
    decreases |lines|
  {
    if lines == [] then Ok(st)
    else match Step(st, lines[0], rule, parseFloat)
      case Err(e) => Err(e)
      case Ok(next) => ParseFrom(next, lines[1..], rule, parseFloat)
  }

  /** `parse_text_file` on the lines of a file. */
  function Parse(lines: seq<string>, rule: WeightRule, parseFloat: string -> Option<real>)
    : Result<Scenario, ParseError>
  {
    match ParseFrom(Start, lines, rule, parseFloat)
    case Err(e) => Err(e)
    case Ok(st) =>
      if st.capacity.None? then Err(MissingCapacity) else Ok(Scenario(st.graph, st.depots, st.capacity.value))
  }

  /** Only a `VEHICLE CAPACITY` line sets the capacity. */
  lemma StepCapacity(st: ParseState, raw: string, rule: WeightRule, parseFloat: string -> Option<real>)
    requires Step(st, raw, rule, parseFloat).Ok?
    ensures var next := Step(st, raw, rule, parseFloat).value;
      next.capacity != st.capacity ==> StartsWith(Strip(raw), "VEHICLE CAPACITY")
  {
    var line := Strip(raw);
    StepOnCapacity(st, line, LineClassOf(line), rule, parseFloat);
  }

  lemma StepOnCapacity(st: ParseState, line: string, c: LineClass, rule: WeightRule,
                       parseFloat: string -> Option<real>)
    requires StepOn(st, line, c, rule, parseFloat).Ok?
    ensures StepOn(st, line, c, rule, parseFloat).value.capacity != st.capacity ==> c == CapacityLine
  {}

  /** A loop that ends with a capacity it did not start with read a `VEHICLE CAPACITY` line. */
  lemma {:induction false} ParseFromCapacity(st: ParseState, lines: seq<string>, rule: WeightRule,
                                             parseFloat: string -> Option<real>)
    requires ParseFrom(st, lines, rule, parseFloat).Ok?
    requires ParseFrom(st, lines, rule, parseFloat).value.capacity != st.capacity
    ensures exists i :: 0 <= i < |lines| && StartsWith(Strip(lines[i]), "VEHICLE CAPACITY")
    decreases |lines|
  {
    var next := Step(st, lines[0], rule, parseFloat).value;
    StepCapacity(st, lines[0], rule, parseFloat);
    if next.capacity == st.capacity {
      ParseFromCapacity(next, lines[1..], rule, parseFloat);
      var i :| 0 <= i < |lines[1..]| && StartsWith(Strip(lines[1..][i]), "VEHICLE CAPACITY");
      assert lines[1..][i] == lines[i + 1];
    }
  }

  /** `parse_text_file` raises its ValueError unless some line starts with
      `VEHICLE CAPACITY`. */
  lemma ParseNeedsCapacity(lines: seq<string>, rule: WeightRule, parseFloat: string -> Option<real>)
    requires Parse(lines, rule, parseFloat).Ok?
    ensures exists i :: 0 <= i < |lines| && StartsWith(Strip(lines[i]), "VEHICLE CAPACITY")
  {
    ParseFromCapacity(Start, lines, rule, parseFloat);
  }

  /** Without a line that fails to parse, a file with no capacity line is rejected with the
      missing-capacity error. */
  lemma MissingCapacityRejected(lines: seq<string>, rule: WeightRule, parseFloat: string -> Option<real>)
    requires ParseFrom(Start, lines, rule, parseFloat).Ok?
    requires forall i :: 0 <= i < |lines| ==> !StartsWith(Strip(lines[i]), "VEHICLE CAPACITY")
    ensures Parse(lines, rule, parseFloat) == Err(MissingCapacity)
  {
    if ParseFrom(Start, lines, rule, parseFloat).value.capacity.Some? {
      ParseFromCapacity(Start, lines, rule, parseFloat);
    }
  }

  /** A `VEHICLE CAPACITY` line is none of the line kinds tested before it. */
  lemma CapacityClass(line: string)
    requires StartsWith(line, "VEHICLE CAPACITY")
    ensures LineClassOf(line) == CapacityLine
  {
    var v := "VEHICLE CAPACITY";
    PrefixesDiffer(line, v, "NAME", 0);
    PrefixesDiffer(line, v, "NUMBER OF VERTICES", 0);
  }

  /** No line unsets the capacity, and a capacity line that parses sets it. */
  lemma StepOnKeepsCapacity(st: ParseState, line: string, c: LineClass, rule: WeightRule,
                            parseFloat: string -> Option<real>)
    requires StepOn(st, line, c, rule, parseFloat).Ok?
    ensures st.capacity.Some? || c == CapacityLine ==> StepOn(st, line, c, rule, parseFloat).value.capacity.Some?
  {}

  /** A loop that starts with a capacity, or meets a `VEHICLE CAPACITY` line, ends with one. */
  lemma {:induction false} ParseFromSetsCapacity(st: ParseState, lines: seq<string>, rule: WeightRule,
                                                 parseFloat: string -> Option<real>)
    requires ParseFrom(st, lines, rule, parseFloat).Ok?
    requires st.capacity.Some? || exists i :: 0 <= i < |lines| && StartsWith(Strip(lines[i]), "VEHICLE CAPACITY")
    ensures ParseFrom(st, lines, rule, parseFloat).value.capacity.Some?
    decreases |lines|
  {
    if lines != [] {
      var line := Strip(lines[0]);
      var next := Step(st, lines[0], rule, parseFloat).value;
      if StartsWith(line, "VEHICLE CAPACITY") {
        CapacityClass(line);
      }
      StepOnKeepsCapacity(st, line, LineClassOf(line), rule, parseFloat);
      if next.capacity.None? {
        var i :| 0 <= i < |lines| && StartsWith(Strip(lines[i]), "VEHICLE CAPACITY");
        assert lines[1..][i - 1] == lines[i];
      }
      ParseFromSetsCapacity(next, lines[1..], rule, parseFloat);
    }
  }

  /** A file whose lines all parse and that has a `VEHICLE CAPACITY` line is accepted. */
  lemma CapacityPresentAccepted(lines: seq<string>, rule: WeightRule, parseFloat: string -> Option<real>)
    requires ParseFrom(Start, lines, rule, parseFloat).Ok?
    requires exists i :: 0 <= i < |lines| && StartsWith(Strip(lines[i]), "VEHICLE CAPACITY")
    ensures Parse(lines, rule, parseFloat).Ok?
  {
    ParseFromSetsCapacity(Start, lines, rule, parseFloat);
  }

  /** When every line parses, the file is accepted exactly when it has a capacity line. */
  lemma AcceptedIffCapacity(lines: seq<string>, rule: WeightRule, parseFloat: string -> Option<real>)
    requires ParseFrom(Start, lines, rule, parseFloat).Ok?
    ensures Parse(lines, rule, parseFloat).Ok?
      <==> exists i :: 0 <= i < |lines| && StartsWith(Strip(lines[i]), "VEHICLE CAPACITY")
  {
    if exists i :: 0 <= i < |lines| && StartsWith(Strip(lines[i]), "VEHICLE CAPACITY") {
      CapacityPresentAccepted(lines, rule, parseFloat);
    } else {
      MissingCapacityRejected(lines, rule, parseFloat);
    }
  }

  /** Outside the two edge sections no line adds or changes an edge. */
  lemma StepEdgesOutside(st: ParseState, raw: string, rule: WeightRule, parseFloat: string -> Option<real>)
    requires Step(st, raw, rule, parseFloat).Ok?
    requires st.section != RequiredEdges && st.section != NonRequiredEdges
    ensures Step(st, raw, rule, parseFloat).value.graph.edges == st.graph.edges
  {
    var line := Strip(raw);
    StepOnEdges(st, line, LineClassOf(line), rule, parseFloat);
  }

  /** No line removes an edge, and an edge a line adds or overwrites is required exactly
      when the current section is the required one. */
  lemma StepEdgesRequired(st: ParseState, raw: string, rule: WeightRule, parseFloat: string -> Option<real>)
    requires Step(st, raw, rule, parseFloat).Ok?
    ensures var next := Step(st, raw, rule, parseFloat).value;
      && st.graph.edges.Keys <= next.graph.edges.Keys
      && forall k :: k in next.graph.edges && (k !in st.graph.edges || next.graph.edges[k] != st.graph.edges[k])
           ==> next.graph.edges[k].required == (st.section == RequiredEdges)
  {
    var line := Strip(raw);
    StepOnEdges(st, line, LineClassOf(line), rule, parseFloat);
  }

  lemma StepOnEdges(st: ParseState, line: string, c: LineClass, rule: WeightRule,
                    parseFloat: string -> Option<real>)
    requires StepOn(st, line, c, rule, parseFloat).Ok?
    ensures var next := StepOn(st, line, c, rule, parseFloat).value;
      && (st.section != RequiredEdges && st.section != NonRequiredEdges ==> next.graph.edges == st.graph.edges)
      && st.graph.edges.Keys <= next.graph.edges.Keys
      && forall k :: k in next.graph.edges && (k !in st.graph.edges || next.graph.edges[k] != st.graph.edges[k])
           ==> next.graph.edges[k].required == (st.section == RequiredEdges)
  {}

  /** A `DEPOT:` line replaces the depot list with its own, in the order written, or fails. */
  lemma StepDepotLine(st: ParseState, raw: string, rule: WeightRule, parseFloat: string -> Option<real>)
    requires StartsWith(Strip(raw), "DEPOT:")
    ensures Step(st, raw, rule, parseFloat) == match ParseDepots(Strip(raw))
      case None => Err(BadLine(Strip(raw)))
      case Some(ds) => Ok(st.(depots := ds))
  {
    var line := Strip(raw);
    DepotClass(line);
    StepOnDepots(st, line, LineClassOf(line), rule, parseFloat);
  }

  lemma StepOnDepots(st: ParseState, line: string, c: LineClass, rule: WeightRule,
                     parseFloat: string -> Option<real>)
    requires c == DepotsLine
    ensures StepOn(st, line, c, rule, parseFloat) == match ParseDepots(line)
      case None => Err(BadLine(line))
      case Some(ds) => Ok(st.(depots := ds))
  {}

  /** A `DEPOT:` line is none of the line kinds tested before it. */
  lemma DepotClass(line: string)
    requires StartsWith(line, "DEPOT:")
    ensures LineClassOf(line) == DepotsLine
  {
    var d := "DEPOT:";
    PrefixesDiffer(line, d, "NAME", 0);
    PrefixesDiffer(line, d, "NUMBER OF VERTICES", 0);
    PrefixesDiffer(line, d, "VEHICLE CAPACITY", 0);
    PrefixesDiffer(line, d, "LIST_REQUIRED_EDGES:", 0);
    PrefixesDiffer(line, d, "LIST_NON_REQUIRED_EDGES:", 0);
    PrefixesDiffer(line, d, "FAILURE_SCENARIO:", 0);
  }

  lemma ParseFromUnfold(st: ParseState, lines: seq<string>, i: nat, rule: WeightRule, parseFloat: string -> Option<real>)
    requires i < |lines|
    ensures ParseFrom(st, lines[i..], rule, parseFloat)
      == match Step(st, lines[i], rule, parseFloat)
         case Err(e) => Err(e)
         case Ok(next) => ParseFrom(next, lines[i + 1..], rule, parseFloat)
  {
    assert lines[i..][1..] == lines[i + 1..];
  }

  /** `parse_text_file(file_path)` once the file has been read into `lines`; the
      `if`/`elif` chain of its loop is the `match` on `LineClassOf(line)`. */
  method ParseTextFile(lines: seq<string>, rule: WeightRule, parseFloat: string -> Option<real>)
    returns (r: Result<Scenario, ParseError>)
    ensures r == Parse(lines, rule, parseFloat)
  {
    var g := EmptyGraph;
    var depots: seq<int> := [];
    var capacity: Option<real> := None;
    var section := NoSection;
    var i := 0;
    while i < |lines|
      invariant 0 <= i <= |lines|
      invariant ParseFrom(ParseState(section, g, depots, capacity), lines[i..], rule, parseFloat)
        == ParseFrom(Start, lines, rule, parseFloat)
    {
      ghost var before := ParseState(section, g, depots, capacity);
      ParseFromUnfold(before, lines, i, rule, parseFloat);
      var line := Strip(lines[i]);
      var c := LineClassOf(line);
      ghost var expected := StepOn(before, line, c, rule, parseFloat);
      i := i + 1;
      match c {
        case Blank =>
        case NameLine =>
        case VerticesLine =>
          var n := HeaderInt(line);
          if n.None? {
            return Err(BadLine(line));
          }
          g := AddNodesFrom(g, 1, n.value);
        case CapacityLine =>
          var cap := HeaderReal(line, parseFloat);
          if cap.None? {
            return Err(BadLine(line));
          }
          capacity := Some(cap.value);
        case RequiredMarker =>
          section := RequiredEdges;
        case NonRequiredMarker =>
          section := NonRequiredEdges;
        case FailureMarker =>
          section := FailureScenario;
        case DepotsLine =>
          var ds := ParseDepots(line);
          if ds.None? {
            return Err(BadLine(line));
          }
          depots := ds.value;
        case OtherLine =>
          if section == RequiredEdges || section == NonRequiredEdges {
            var e := ParseEdgeLine(line);
            if e.None? {
              return Err(BadLine(line));
            }
            var (u, v, rest) := e.value;
            var weight := ExtractWeight(rule, rest, parseFloat);
            var required := section == RequiredEdges;
            g := AddEdge(g, u, v, weight, required);
          }
      }
      assert expected == Ok(ParseState(section, g, depots, capacity));
    }
    if capacity.None? {
      return Err(MissingCapacity);
    }
    return Ok(Scenario(g, depots, capacity.value));
  }
}
