/** `rebalance_required_edges(text_lines)`: split a scenario file into header, required
    edges, non-required edges and footer; make the required edges the first half (rounded
    up) of all edge lines; rebuild the file and rewrite its count lines. */
module Rebalance {
  import opened Wrappers
  import opened Strings

  const ReqMarker := "LIST_REQUIRED_EDGES:"
  const NonReqMarker := "LIST_NON_REQUIRED_EDGES:"
  const ReqCountKey := "NUMBER OF REQUIRED_EDGES:"
  const NonReqCountKey := "NUMBER OF NON_REQUIRED_EDGES:"
  const VehiclesKey := "NUMBER OF VEHICLES:"
  const DepotKey := "DEPOT:"

  /** The value of `section` in the splitting loop. */
  datatype Section = NoSection | Required | NonRequired | Footer

  /** What the splitting loop has collected so far. */
  datatype Parts = Parts(section: Section, header: seq<string>, req: seq<string>, nonreq: seq<string>, footer: seq<string>)

  const NoParts := Parts(NoSection, [], [], [], [])

  predicate IsReqMarker(line: string) {
    StartsWith(Strip(line), ReqMarker)
  }

  predicate IsNonReqMarker(line: string) {
    StartsWith(Strip(line), NonReqMarker)
  }

  /** An edge line: `stripped.startswith("(")`. */
  predicate IsEdgeLine(line: string) {
    StartsWith(Strip(line), "(")
  }

  /** A line that closes the edge sections, such as `FAILURE_SCENARIO:`. */
  predicate ClosesSection(line: string) {
    EndsWith(Strip(line), ":")
  }

  /** What the splitting loop tests of a line, in the order it tests them: the two
      markers, then a closing line, then an edge line. */
  datatype LineKind = ReqMark | NonReqMark | Closing | Edge | Plain

  function Classify(line: string): (k: LineKind)
    ensures k == ReqMark <==> IsReqMarker(line)
    ensures k == NonReqMark <==> !IsReqMarker(line) && IsNonReqMarker(line)
    ensures k == Closing <==> !IsReqMarker(line) && !IsNonReqMarker(line) && ClosesSection(line)
    ensures k == Edge <==> !IsReqMarker(line) && !IsNonReqMarker(line) && !ClosesSection(line) && IsEdgeLine(line)
  {
    if IsReqMarker(line) then ReqMark
    else if IsNonReqMarker(line) then NonReqMark
    else if ClosesSection(line) then Closing
    else if IsEdgeLine(line) then Edge
    else Plain
  }

  /** One iteration of the splitting loop, on a line of kind `k`. A closing line is only
      a closing line inside an edge section; elsewhere it is filed like any other line. */
  function SplitStep(p: Parts, line: string, k: LineKind): Parts {
    if k == ReqMark then p.(section := Required, header := p.header + [line])
    else if k == NonReqMark then p.(section := NonRequired)
    else if k == Closing && (p.section == Required || p.section == NonRequired) then
      p.(section := Footer, footer := p.footer + [line])
    else match p.section
      case NoSection => p.(header := p.header + [line])
      case Required =>
        if k == Edge then p.(req := p.req + [line]) else p.(header := p.header + [line])
      case NonRequired =>
        if k == Edge then p.(nonreq := p.nonreq + [line]) else p
      case Footer => p.(footer := p.footer + [line])
  }

  /** The loop run over `lines` from the collected parts `p`, each line classified by
      `kind`. */
  function SplitFrom(kind: string -> LineKind, p: Parts, lines: seq<string>): Parts
    decreases |lines|
  {
    if lines == [] then p
    else
      var x := lines[|lines| - 1];
      SplitStep(SplitFrom(kind, p, lines[..|lines| - 1]), x, kind(x))
  }

  function SplitLines(lines: seq<string>): Parts {
    SplitFrom(Classify, NoParts, lines)
  }

  /** The splitting loop (step 1 of the rebuild). */
  method SplitSections(lines: seq<string>) returns (header: seq<string>, req: seq<string>, nonreq: seq<string>, footer: seq<string>)
    ensures var p := SplitLines(lines);
      header == p.header && req == p.req && nonreq == p.nonreq && footer == p.footer
  {
    header, req, nonreq, footer := [], [], [], [];
    var section := NoSection;
    for i := 0 to |lines|
      invariant Parts(section, header, req, nonreq, footer) == SplitFrom(Classify, NoParts, lines[..i])
    {
      var line := lines[i];
      assert lines[..i + 1][..i] == lines[..i];
      ghost var k := Classify(line);
      var stripped := Strip(line);
      if StartsWith(stripped, ReqMarker) {
        section := Required;
        header := header + [line];
        continue;
      } else if StartsWith(stripped, NonReqMarker) {
        section := NonRequired;
        continue;
      } else if EndsWith(stripped, ":") && (section == Required || section == NonRequired) {
        section := Footer;
        footer := footer + [line];
        continue;
      }
      if section == NoSection {
        header := header + [line];
      } else if section == Required {
        if StartsWith(stripped, "(") {
          req := req + [line];
        } else {
          header := header + [line];
        }
      } else if section == NonRequired {
        if StartsWith(stripped, "(") {
          nonreq := nonreq + [line];
        }
      } else {
        footer := footer + [line];
      }
    }
    assert lines[..|lines|] == lines;
  }

  /** `math.ceil(total_edges / 2)`. */
  function Target(total: nat): nat {
    (total + 1) / 2
  }

  lemma TargetIsCeiling(total: nat)
    ensures 2 * Target(total) == total || 2 * Target(total) == total + 1
    ensures Target(total) <= total && total - Target(total) <= Target(total)
  {}

  /** The required and non-required lines after step 2: the edge lines in their file order,
      the first half (rounded up) required and the rest non-required. */
  function Balanced(req: seq<string>, nonreq: seq<string>): (r: (seq<string>, seq<string>))
    ensures r.0 + r.1 == req + nonreq
    ensures |r.0| == Target(|req| + |nonreq|) && |r.1| == (|req| + |nonreq|) / 2
  {
    var all := req + nonreq;
    var t := Target(|all|);
    assert all[..t] + all[t..] == all;
    (all[..t], all[t..])
  }

  /** Step 2: `nonreq_lines.insert(0, req_lines.pop())` while there are too many required
      lines, else `req_lines.append(nonreq_lines.pop(0))` while there are too few. */
  method Balance(req0: seq<string>, nonreq0: seq<string>) returns (req: seq<string>, nonreq: seq<string>)
    ensures (req, nonreq) == Balanced(req0, nonreq0)
  {
    req, nonreq := req0, nonreq0;
    var total := |req| + |nonreq|;
    var target := Target(total);
    if |req| > target {
      var moves := |req| - target;
      for k := 0 to moves
        invariant req + nonreq == req0 + nonreq0
        invariant |req| == |req0| - k
      {
        var last := req[|req| - 1];
        assert req == req[..|req| - 1] + [last];
        nonreq := [last] + nonreq;
        req := req[..|req| - 1];
      }
    } else {
      var moves := target - |req|;
      for k := 0 to moves
        invariant req + nonreq == req0 + nonreq0
        invariant |req| == |req0| + k
      {
        if nonreq == [] {
          assert false;
          break;
        }
        assert nonreq == [nonreq[0]] + nonreq[1..];
        req := req + [nonreq[0]];
        nonreq := nonreq[1..];
      }
    }
    var all := req0 + nonreq0;
    assert req == all[..target] && nonreq == all[target..];
  }

  /** `lines` up to and including the first line `stop` accepts, all of them when it
      accepts none. */
  function ThroughFirst(lines: seq<string>, stop: string -> bool): seq<string>
    decreases |lines|
  {
    if lines == [] then []
    else if stop(lines[0]) then [lines[0]]
    else [lines[0]] + ThroughFirst(lines[1..], stop)
  }

  /** The copy ends with the first accepted line. */
  lemma {:induction false} ThroughFirstAt(lines: seq<string>, stop: string -> bool, i: nat)
    requires i < |lines| && stop(lines[i])
    requires forall j :: 0 <= j < i ==> !stop(lines[j])
    ensures ThroughFirst(lines, stop) == lines[..i + 1]
    decreases i
  {
    if i > 0 {
      var rest := lines[1..];
      assert forall j :: 0 <= j < i - 1 ==> rest[j] == lines[j + 1];
      ThroughFirstAt(rest, stop, i - 1);
      assert lines[..i + 1] == [lines[0]] + rest[..i];
    }
  }

  /** Without an accepted line everything is copied. */
  lemma {:induction false} ThroughFirstAll(lines: seq<string>, stop: string -> bool)
    requires forall j :: 0 <= j < |lines| ==> !stop(lines[j])
    ensures ThroughFirst(lines, stop) == lines
    decreases |lines|
  {
    if lines != [] {
      var rest := lines[1..];
      forall j | 0 <= j < |rest|
        ensures !stop(rest[j])
      {
        assert rest[j] == lines[j + 1];
      }
      ThroughFirstAll(rest, stop);
      assert !stop(lines[0]);
      assert lines == [lines[0]] + rest;
    }
  }

  /** The header lines step 3 copies: up to and including the first `LIST_REQUIRED_EDGES:`
      line. */
  function UpToReqMarker(header: seq<string>): seq<string> {
    ThroughFirst(header, IsReqMarker)
  }

  /** The header loop of step 3. */
  method CopyHeader(header: seq<string>) returns (out: seq<string>)
    ensures out == UpToReqMarker(header)
  {
    var stop := IsReqMarker;
    out := [];
    var i := 0;
    while i < |header|
      invariant 0 <= i <= |header| && out == header[..i]
      invariant forall j :: 0 <= j < i ==> !stop(header[j])
    {
      var line := header[i];
      assert header[..i + 1] == header[..i] + [line];
      out := out + [line];
      if stop(line) {
        ThroughFirstAt(header, stop, i);
        return;
      }
      i := i + 1;
    }
    ThroughFirstAll(header, stop);
    assert out == header;
  }

  /** The file of step 3 before its count lines are fixed. */
  function Rebuilt(header: seq<string>, req: seq<string>, nonreq: seq<string>, footer: seq<string>): seq<string> {
    UpToReqMarker(header) + req + [NonReqMarker + "\n"] + nonreq + footer
  }

  predicate IsDepotLine(line: string) {
    StartsWith(Strip(line), DepotKey)
  }

  /** `len([t for t in re.split(r'[, \t]+', l.split(":", 1)[1].strip()) if t])`. */
  function DepotTokens(line: string): nat {
    match Remainder(line, ":")
    case None => 0
    case Some(rest) => |Tokens(Strip(rest))|
  }

  /** The index of the first line `accept` accepts. */
  function FirstWhere(lines: seq<string>, accept: string -> bool): (r: Option<nat>)
    ensures r.Some? ==> r.value < |lines| && accept(lines[r.value])
    ensures r.Some? ==> forall j :: 0 <= j < r.value ==> !accept(lines[j])
    ensures r.None? ==> forall j :: 0 <= j < |lines| ==> !accept(lines[j])
    decreases |lines|
  {
    if lines == [] then None
    else if accept(lines[0]) then Some(0)
    else
      var rest := lines[1..];
      assert forall j :: 0 <= j < |rest| ==> rest[j] == lines[j + 1];
      match FirstWhere(rest, accept)
      case None => None
      case Some(k) => Some(k + 1)
  }

  lemma FirstWhereAt(lines: seq<string>, accept: string -> bool, i: nat)
    requires i < |lines| && accept(lines[i])
    requires forall j :: 0 <= j < i ==> !accept(lines[j])
    ensures FirstWhere(lines, accept) == Some(i)
  {}

  /** Step 4: the token count of the first `DEPOT:` line, 0 when there is none. */
  function DepotCount(lines: seq<string>): nat {
    match FirstWhere(lines, IsDepotLine)
    case None => 0
    case Some(i) => DepotTokens(lines[i])
  }

  /** The depot-counting loop of step 4. */
  method CountDepots(out: seq<string>) returns (depotCount: nat)
    ensures depotCount == DepotCount(out)
  {
    var isDepot := IsDepotLine;
    depotCount := 0;
    for i := 0 to |out|
      invariant depotCount == 0
      invariant forall j :: 0 <= j < i ==> !isDepot(out[j])
    {
      var l := out[i];
      if isDepot(l) {
        var parts := Remainder(l, ":");
        if parts.Some? {
          depotCount := |Tokens(Strip(parts.value))|;
        }
        assert depotCount == DepotTokens(out[i]);
        FirstWhereAt(out, isDepot, i);
        return;
      }
    }
  }

  /** `2 if depot_count == 1 else depot_count`. */
  function VehicleCount(depotCount: nat): nat {
    if depotCount == 1 then 2 else depotCount
  }

  /** The line of step 5 that states `value` under `key`. */
  function CountLine(key: string, value: int): string {
    key + " " + IntToString(value) + "\n"
  }

  /** Step 5 on one line. */
  function FixLine(line: string, nreq: nat, nnon: nat, vehicles: nat): string {
    var s := Strip(line);
    if StartsWith(s, ReqCountKey) then CountLine(ReqCountKey, nreq)
    else if StartsWith(s, NonReqCountKey) then CountLine(NonReqCountKey, nnon)
    else if StartsWith(s, VehiclesKey) then CountLine(VehiclesKey, vehicles)
    else line
  }

  /** `f` applied to every line, in order. */
  function MapLines(lines: seq<string>, f: string -> string): (r: seq<string>)
    ensures |r| == |lines| && forall i :: 0 <= i < |lines| ==> r[i] == f(lines[i])
    decreases |lines|
  {
    if lines == [] then [] else MapLines(lines[..|lines| - 1], f) + [f(lines[|lines| - 1])]
  }

  function FixAll(lines: seq<string>, nreq: nat, nnon: nat, vehicles: nat): seq<string> {
    MapLines(lines, l => FixLine(l, nreq, nnon, vehicles))
  }

  /** The count-fixing loop of step 5. */
  method FixCounts(out: seq<string>, nreq: nat, nnon: nat, vehicles: nat) returns (fixed: seq<string>)
    ensures fixed == FixAll(out, nreq, nnon, vehicles)
  {
    ghost var fix := l => FixLine(l, nreq, nnon, vehicles);
    fixed := [];
    for i := 0 to |out|
      invariant fixed == MapLines(out[..i], fix)
    {
      var line := out[i];
      assert out[..i + 1][..i] == out[..i];
      var stripped := Strip(line);
      var next: string;
      if StartsWith(stripped, ReqCountKey) {
        next := ReqCountKey + " " + IntToString(nreq) + "\n";
      } else if StartsWith(stripped, NonReqCountKey) {
        next := NonReqCountKey + " " + IntToString(nnon) + "\n";
      } else if StartsWith(stripped, VehiclesKey) {
        next := VehiclesKey + " " + IntToString(vehicles) + "\n";
      } else {
        next := line;
      }
      assert next == fix(line);
      fixed := fixed + [next];
    }
    assert out[..|out|] == out;
  }

  /** What `rebalance_required_edges` returns. */
  datatype Outcome = Outcome(lines: seq<string>, depotCount: nat, vehicleCount: nat)

  function Rebalanced(text: seq<string>): Outcome {
    var p := SplitLines(text);
    var b := Balanced(p.req, p.nonreq);
    var out := Rebuilt(p.header, b.0, b.1, p.footer);
    var dc := DepotCount(out);
    var vc := VehicleCount(dc);
    Outcome(FixAll(out, |b.0|, |b.1|, vc), dc, vc)
  }

  /** `rebalance_required_edges(text_lines)`. */
  method RebalanceRequiredEdges(text: seq<string>) returns (fixed: seq<string>, depotCount: nat, vehicleCount: nat)
    ensures Outcome(fixed, depotCount, vehicleCount) == Rebalanced(text)
  {
    var header, req, nonreq, footer := SplitSections(text);
    req, nonreq := Balance(req, nonreq);
    var out := CopyHeader(header);
    out := out + req + [NonReqMarker + "\n"] + nonreq + footer;
    depotCount := CountDepots(out);
    vehicleCount := if depotCount == 1 then 2 else depotCount;
    fixed := FixCounts(out, |req|, |nonreq|, vehicleCount);
  }

  // Properties of the splitting loop.

  /** Running the loop over `a + b` is running it over `a`, then over `b`. */
  lemma {:induction false} SplitFromAppend(kind: string -> LineKind, p: Parts, a: seq<string>, b: seq<string>)
    ensures SplitFrom(kind, p, a + b) == SplitFrom(kind, SplitFrom(kind, p, a), b)
    decreases |b|
  {
    if b == [] {
      assert a + b == a;
    } else {
      var b' := b[..|b| - 1];
      assert (a + b)[..|a + b| - 1] == a + b';
      assert (a + b)[|a + b| - 1] == b[|b| - 1];
      SplitFromAppend(kind, p, a, b');
    }
  }

  lemma SplitFromOne(kind: string -> LineKind, p: Parts, x: string)
    ensures SplitFrom(kind, p, [x]) == SplitStep(p, x, kind(x))
  {
    assert [x][..0] == [];
  }

  /** Every line filed as an edge has kind `Edge`. */
  predicate EdgesOnly(kind: string -> LineKind, p: Parts) {
    && (forall i :: 0 <= i < |p.req| ==> kind(p.req[i]) == Edge)
    && (forall i :: 0 <= i < |p.nonreq| ==> kind(p.nonreq[i]) == Edge)
  }

  lemma {:induction false} SplitFromEdgesOnly(kind: string -> LineKind, p: Parts, lines: seq<string>)
    requires EdgesOnly(kind, p)
    ensures EdgesOnly(kind, SplitFrom(kind, p, lines))
    decreases |lines|
  {
    if lines != [] {
      SplitFromEdgesOnly(kind, p, lines[..|lines| - 1]);
    }
  }

  /** The required and non-required parts hold only edge lines: lines whose stripped form
      starts with `(` and is neither a marker nor a closing line. */
  lemma SplitEdgeLines(lines: seq<string>)
    ensures forall i :: 0 <= i < |SplitLines(lines).req| ==> IsEdgeLine(SplitLines(lines).req[i])
    ensures forall i :: 0 <= i < |SplitLines(lines).nonreq| ==> IsEdgeLine(SplitLines(lines).nonreq[i])
  {
    SplitFromEdgesOnly(Classify, NoParts, lines);
    var p := SplitLines(lines);
    forall i | 0 <= i < |p.req| ensures IsEdgeLine(p.req[i]) {
      assert Classify(p.req[i]) == Edge;
    }
    forall i | 0 <= i < |p.nonreq| ensures IsEdgeLine(p.nonreq[i]) {
      assert Classify(p.nonreq[i]) == Edge;
    }
  }

  /** The parts the loop collects, all together. */
  function AllParts(p: Parts): seq<string> {
    p.header + p.req + p.nonreq + p.footer
  }

  /** Appending `x` to one of the four parts adds `x` to the multiset of all parts. */
  lemma AppendToPart(h: seq<string>, r: seq<string>, n: seq<string>, f: seq<string>, x: string, which: nat)
    requires which < 4
    ensures var q := Parts(NoSection, if which == 0 then h + [x] else h, if which == 1 then r + [x] else r,
                           if which == 2 then n + [x] else n, if which == 3 then f + [x] else f);
      multiset(AllParts(q)) == multiset(h + r + n + f) + multiset([x])
  {}

  /** Where `SplitStep` files a line of kind `k` in section `sec`: 0 to 3 for the header,
      required, non-required and footer parts, 4 when it drops the line. */
  function Destination(sec: Section, k: LineKind): nat {
    if k == ReqMark then 0
    else if k == NonReqMark then 4
    else if k == Closing && (sec == Required || sec == NonRequired) then 3
    else match sec
      case NoSection => 0
      case Required => if k == Edge then 1 else 0
      case NonRequired => if k == Edge then 2 else 4
      case Footer => 3
  }

  lemma SplitStepDestination(p: Parts, x: string, k: LineKind)
    ensures var q := SplitStep(p, x, k); var d := Destination(p.section, k);
      && q.header == (if d == 0 then p.header + [x] else p.header)
      && q.req == (if d == 1 then p.req + [x] else p.req)
      && q.nonreq == (if d == 2 then p.nonreq + [x] else p.nonreq)
      && q.footer == (if d == 3 then p.footer + [x] else p.footer)
  {}

  /** A line is filed at the end of one part, or dropped. */
  lemma SplitStepKeeps(p: Parts, x: string, k: LineKind)
    ensures multiset(AllParts(SplitStep(p, x, k))) <= multiset(AllParts(p)) + multiset([x])
  {
    var q := SplitStep(p, x, k);
    var d := Destination(p.section, k);
    SplitStepDestination(p, x, k);
    if d < 4 {
      AppendToPart(p.header, p.req, p.nonreq, p.footer, x, d);
      assert AllParts(q) == AllParts(q.(section := NoSection));
    } else {
      assert AllParts(q) == AllParts(p);
    }
  }

  /** The loop only files lines away or drops them: every collected line is an input
      line, and no input line is collected twice. */
  lemma {:induction false} SplitFromKeeps(kind: string -> LineKind, p: Parts, lines: seq<string>)
    ensures multiset(AllParts(SplitFrom(kind, p, lines))) <= multiset(AllParts(p)) + multiset(lines)
    decreases |lines|
  {
    if lines != [] {
      var init := lines[..|lines| - 1];
      var x := lines[|lines| - 1];
      SplitFromKeeps(kind, p, init);
      SplitStepKeeps(SplitFrom(kind, p, init), x, kind(x));
      assert lines == init + [x];
    }
  }

  lemma SplitKeeps(lines: seq<string>)
    ensures multiset(AllParts(SplitLines(lines))) <= multiset(lines)
  {
    SplitFromKeeps(Classify, NoParts, lines);
  }

  /** A line of kind `k` leaves the section `sec` unchanged and is filed in that section's
      part. */
  predicate Stays(sec: Section, k: LineKind) {
    && k != ReqMark && k != NonReqMark
    && match sec
      case NoSection => true
      case Footer => true
      case Required => k == Edge
      case NonRequired => k == Edge
  }

  /** `p` with `a` appended to the part of its current section. */
  function Collect(p: Parts, a: seq<string>): Parts {
    match p.section
    case NoSection => p.(header := p.header + a)
    case Required => p.(req := p.req + a)
    case NonRequired => p.(nonreq := p.nonreq + a)
    case Footer => p.(footer := p.footer + a)
  }

  /** A run of lines that all stay in the current section is filed there in order. */
  lemma {:induction false} SplitRun(kind: string -> LineKind, p: Parts, a: seq<string>)
    requires forall i :: 0 <= i < |a| ==> Stays(p.section, kind(a[i]))
    ensures SplitFrom(kind, p, a) == Collect(p, a)
    decreases |a|
  {
    if a == [] {
      assert p.header + a == p.header && p.req + a == p.req;
      assert p.nonreq + a == p.nonreq && p.footer + a == p.footer;
    } else {
      var init := a[..|a| - 1];
      var x := a[|a| - 1];
      forall i | 0 <= i < |init| ensures Stays(p.section, kind(init[i])) {
        assert init[i] == a[i];
      }
      SplitRun(kind, p, init);
      assert Stays(p.section, kind(x));
      assert a == init + [x];
      match p.section
      case NoSection => assert (p.header + init) + [x] == p.header + a;
      case Required => assert (p.req + init) + [x] == p.req + a;
      case NonRequired => assert (p.nonreq + init) + [x] == p.nonreq + a;
      case Footer => assert (p.footer + init) + [x] == p.footer + a;
    }
  }

  /** A scenario file laid out as the format describes: header lines, the
      `LIST_REQUIRED_EDGES:` line, edge lines, the `LIST_NON_REQUIRED_EDGES:` line, edge
      lines, a closing line such as `FAILURE_SCENARIO:`, and footer lines; `kind` says
      which line is which. */
  predicate Canonical(kind: string -> LineKind, pre: seq<string>, m: string, req: seq<string>, m2: string,
                      nonreq: seq<string>, closing: string, post: seq<string>) {
    && (forall i :: 0 <= i < |pre| ==> kind(pre[i]) != ReqMark && kind(pre[i]) != NonReqMark)
    && kind(m) == ReqMark
    && (forall i :: 0 <= i < |req| ==> kind(req[i]) == Edge)
    && kind(m2) == NonReqMark
    && (forall i :: 0 <= i < |nonreq| ==> kind(nonreq[i]) == Edge)
    && kind(closing) == Closing
    && (forall i :: 0 <= i < |post| ==> kind(post[i]) != ReqMark && kind(post[i]) != NonReqMark)
  }

  /** The header lines and the `LIST_REQUIRED_EDGES:` line open the required section. */
  lemma SplitThroughMarker(kind: string -> LineKind, pre: seq<string>, m: string)
    requires forall i :: 0 <= i < |pre| ==> kind(pre[i]) != ReqMark && kind(pre[i]) != NonReqMark
    requires kind(m) == ReqMark
    ensures SplitFrom(kind, NoParts, pre + [m]) == Parts(Required, pre + [m], [], [], [])
  {
    forall i | 0 <= i < |pre| ensures Stays(NoSection, kind(pre[i])) {}
    SplitRun(kind, NoParts, pre);
    assert [] + pre == pre;
    var p1 := Parts(NoSection, pre, [], [], []);
    SplitFromOne(kind, p1, m);
    SplitFromAppend(kind, NoParts, pre, [m]);
  }

  /** A block of edge lines fills the part of the current edge section. */
  lemma SplitEdgeBlock(kind: string -> LineKind, p: Parts, a: seq<string>)
    requires p.section == Required || p.section == NonRequired
    requires forall i :: 0 <= i < |a| ==> kind(a[i]) == Edge
    ensures SplitFrom(kind, p, a) == Collect(p, a)
  {
    forall i | 0 <= i < |a| ensures Stays(p.section, kind(a[i])) {}
    SplitRun(kind, p, a);
  }

  /** On a file laid out as the format describes, the loop recovers its sections: the
      header ends with the `LIST_REQUIRED_EDGES:` line, the edge lists are the two edge
      blocks, and the footer starts at the closing line. */
  lemma SplitCanonical(kind: string -> LineKind, pre: seq<string>, m: string, req: seq<string>, m2: string,
                       nonreq: seq<string>, closing: string, post: seq<string>)
    requires Canonical(kind, pre, m, req, m2, nonreq, closing, post)
    ensures SplitFrom(kind, NoParts, pre + [m] + req + [m2] + nonreq + [closing] + post)
      == Parts(Footer, pre + [m], req, nonreq, [closing] + post)
  {
    SplitRequiredPart(kind, pre, m, req);
    SplitNonRequiredPart(kind, pre + [m] + req, pre + [m], req, m2, nonreq);
    SplitFooterPart(kind, pre + [m] + req + [m2] + nonreq, pre + [m], req, nonreq, closing, post);
  }

  lemma SplitRequiredPart(kind: string -> LineKind, pre: seq<string>, m: string, req: seq<string>)
    requires forall i :: 0 <= i < |pre| ==> kind(pre[i]) != ReqMark && kind(pre[i]) != NonReqMark
    requires kind(m) == ReqMark
    requires forall i :: 0 <= i < |req| ==> kind(req[i]) == Edge
    ensures SplitFrom(kind, NoParts, pre + [m] + req) == Parts(Required, pre + [m], req, [], [])
  {
    SplitThroughMarker(kind, pre, m);
    SplitEdgeBlock(kind, Parts(Required, pre + [m], [], [], []), req);
    assert [] + req == req;
    SplitFromAppend(kind, NoParts, pre + [m], req);
  }

  lemma SplitNonRequiredPart(kind: string -> LineKind, a: seq<string>, header: seq<string>,
                             req: seq<string>, m2: string, nonreq: seq<string>)
    requires SplitFrom(kind, NoParts, a) == Parts(Required, header, req, [], [])
    requires kind(m2) == NonReqMark
    requires forall i :: 0 <= i < |nonreq| ==> kind(nonreq[i]) == Edge
    ensures SplitFrom(kind, NoParts, a + [m2] + nonreq) == Parts(NonRequired, header, req, nonreq, [])
  {
    SplitFromOne(kind, Parts(Required, header, req, [], []), m2);
    SplitFromAppend(kind, NoParts, a, [m2]);
    SplitEdgeBlock(kind, Parts(NonRequired, header, req, [], []), nonreq);
    assert [] + nonreq == nonreq;
    SplitFromAppend(kind, NoParts, a + [m2], nonreq);
  }

  lemma SplitFooterPart(kind: string -> LineKind, a: seq<string>, header: seq<string>,
                        req: seq<string>, nonreq: seq<string>, closing: string, post: seq<string>)
    requires SplitFrom(kind, NoParts, a) == Parts(NonRequired, header, req, nonreq, [])
    requires kind(closing) == Closing
    requires forall i :: 0 <= i < |post| ==> kind(post[i]) != ReqMark && kind(post[i]) != NonReqMark
    ensures SplitFrom(kind, NoParts, a + [closing] + post) == Parts(Footer, header, req, nonreq, [closing] + post)
  {
    var p := Parts(NonRequired, header, req, nonreq, []);
    SplitFromOne(kind, p, closing);
    assert [] + [closing] == [closing];
    SplitFromAppend(kind, NoParts, a, [closing]);
    var q := Parts(Footer, header, req, nonreq, [closing]);
    forall i | 0 <= i < |post| ensures Stays(Footer, kind(post[i])) {}
    SplitRun(kind, q, post);
    SplitFromAppend(kind, NoParts, a + [closing], post);
  }

  /** A file with neither section marker stays header from start to end. */
  lemma SplitWithoutMarkers(lines: seq<string>)
    requires forall i :: 0 <= i < |lines| ==> !IsReqMarker(lines[i]) && !IsNonReqMarker(lines[i])
    ensures SplitLines(lines) == Parts(NoSection, lines, [], [], [])
  {
    forall i | 0 <= i < |lines| ensures Stays(NoSection, Classify(lines[i])) {}
    SplitRun(Classify, NoParts, lines);
  }

  // Properties of the count lines.

  /** The rewritten count line, stripped, is the key, a space and the number. */
  lemma StripCountLine(key: string, value: int)
    requires key != [] && !IsSpace(key[0])
    ensures Strip(CountLine(key, value)) == key + " " + IntToString(value)
  {
    var t := key + " " + IntToString(value);
    assert t[0] == key[0] && t[|t| - 1] == IntToString(value)[|IntToString(value)| - 1];
    StripNewline(t);
    assert CountLine(key, value) == t + "\n";
  }

  lemma StartsWithAppend(s: string, key: string, rest: string)
    requires s == key + rest
    ensures StartsWith(s, key)
  {
    assert s[..|key|] == key;
  }

  /** The three count keys differ at position 10. */
  lemma CountKeysDiffer()
    ensures |ReqCountKey| > 10 && |NonReqCountKey| > 10 && |VehiclesKey| > 10
    ensures ReqCountKey[10] == 'R' && NonReqCountKey[10] == 'N' && VehiclesKey[10] == 'V'
  {}

  /** A count line, stripped, starts with its key. */
  lemma CountLineStarts(key: string, value: int)
    requires key != [] && !IsSpace(key[0])
    ensures StartsWith(Strip(CountLine(key, value)), key)
  {
    var rest := " " + IntToString(value);
    StripCountLine(key, value);
    assert key + " " + IntToString(value) == key + rest;
    StartsWithAppend(key + rest, key, rest);
  }

  /** Any line whose stripped form starts with `NUMBER OF REQUIRED_EDGES:` comes out of
      step 5 as that key followed by the required count. */
  lemma FixReqCountLine(line: string, nreq: nat, nnon: nat, vehicles: nat)
    requires StartsWith(Strip(line), ReqCountKey)
    ensures FixLine(line, nreq, nnon, vehicles) == CountLine(ReqCountKey, nreq)
  {}

  /** Any line whose stripped form starts with `NUMBER OF NON_REQUIRED_EDGES:` comes out as
      that key followed by the non-required count. */
  lemma FixNonReqCountLine(line: string, nreq: nat, nnon: nat, vehicles: nat)
    requires StartsWith(Strip(line), NonReqCountKey)
    ensures FixLine(line, nreq, nnon, vehicles) == CountLine(NonReqCountKey, nnon)
  {
    CountKeysDiffer();
    PrefixesDiffer(Strip(line), NonReqCountKey, ReqCountKey, 10);
  }

  /** Any line whose stripped form starts with `NUMBER OF VEHICLES:` comes out as that key
      followed by the vehicle count. */
  lemma FixVehiclesLine(line: string, nreq: nat, nnon: nat, vehicles: nat)
    requires StartsWith(Strip(line), VehiclesKey)
    ensures FixLine(line, nreq, nnon, vehicles) == CountLine(VehiclesKey, vehicles)
  {
    var s := Strip(line);
    CountKeysDiffer();
    PrefixesDiffer(s, VehiclesKey, ReqCountKey, 10);
    PrefixesDiffer(s, VehiclesKey, NonReqCountKey, 10);
  }

  /** Fixing the counts twice changes nothing more than fixing them once. */
  lemma FixLineIdempotent(line: string, nreq: nat, nnon: nat, vehicles: nat)
    ensures var f := FixLine(line, nreq, nnon, vehicles);
      FixLine(f, nreq, nnon, vehicles) == f
  {
    var s := Strip(line);
    if StartsWith(s, ReqCountKey) {
      CountLineStarts(ReqCountKey, nreq);
      FixReqCountLine(CountLine(ReqCountKey, nreq), nreq, nnon, vehicles);
    } else if StartsWith(s, NonReqCountKey) {
      CountLineStarts(NonReqCountKey, nnon);
      FixNonReqCountLine(CountLine(NonReqCountKey, nnon), nreq, nnon, vehicles);
    } else if StartsWith(s, VehiclesKey) {
      CountLineStarts(VehiclesKey, vehicles);
      FixVehiclesLine(CountLine(VehiclesKey, vehicles), nreq, nnon, vehicles);
    }
  }

  /** Edge lines are not count lines, so the count fixing leaves them alone. */
  lemma FixLineEdge(line: string, nreq: nat, nnon: nat, vehicles: nat)
    requires IsEdgeLine(line)
    ensures FixLine(line, nreq, nnon, vehicles) == line
  {
    var s := Strip(line);
    assert s[..1] == "(";
    assert s[0] == '(';
  }

  /** The `LIST_NON_REQUIRED_EDGES:` line step 3 writes is not a count line either. */
  lemma FixLineMarker(nreq: nat, nnon: nat, vehicles: nat)
    ensures FixLine(NonReqMarker + "\n", nreq, nnon, vehicles) == NonReqMarker + "\n"
  {
    StripNewline(NonReqMarker);
    assert NonReqMarker[0] == 'L';
  }

  // Properties of the whole rewrite.

  lemma MapLinesAppend(a: seq<string>, b: seq<string>, f: string -> string)
    ensures MapLines(a + b, f) == MapLines(a, f) + MapLines(b, f)
  {
    var l, r := MapLines(a + b, f), MapLines(a, f) + MapLines(b, f);
    forall i | 0 <= i < |l| ensures l[i] == r[i] {
      if i < |a| {
        assert (a + b)[i] == a[i];
      } else {
        assert (a + b)[i] == b[i - |a|];
      }
    }
  }

  /** The count fixing leaves a block of edge lines as it is. */
  lemma FixAllEdges(lines: seq<string>, nreq: nat, nnon: nat, vehicles: nat)
    requires forall i :: 0 <= i < |lines| ==> IsEdgeLine(lines[i])
    ensures FixAll(lines, nreq, nnon, vehicles) == lines
  {
    forall i | 0 <= i < |lines| ensures FixAll(lines, nreq, nnon, vehicles)[i] == lines[i] {
      FixLineEdge(lines[i], nreq, nnon, vehicles);
    }
  }

  /** Fixing the counts of a rebuilt file touches only its header and footer lines. */
  lemma FixAllRebuilt(h: seq<string>, e1: seq<string>, e2: seq<string>, footer: seq<string>,
                      nreq: nat, nnon: nat, vehicles: nat)
    requires forall i :: 0 <= i < |e1| ==> IsEdgeLine(e1[i])
    requires forall i :: 0 <= i < |e2| ==> IsEdgeLine(e2[i])
    ensures FixAll(h + e1 + [NonReqMarker + "\n"] + e2 + footer, nreq, nnon, vehicles)
      == FixAll(h, nreq, nnon, vehicles) + e1 + [NonReqMarker + "\n"] + e2 + FixAll(footer, nreq, nnon, vehicles)
  {
    var m := NonReqMarker + "\n";
    FixAllEdges(e1, nreq, nnon, vehicles);
    FixAllEdges(e2, nreq, nnon, vehicles);
    FixLineMarker(nreq, nnon, vehicles);
    var f := l => FixLine(l, nreq, nnon, vehicles);
    assert MapLines([m], f) == [m];
    MapLinesAppend(h, e1, f);
    MapLinesAppend(h + e1, [m], f);
    MapLinesAppend(h + e1 + [m], e2, f);
    MapLinesAppend(h + e1 + [m] + e2, footer, f);
  }

  /** The split's two edge lists hold edge lines only. */
  lemma SplitEdgesAll(text: seq<string>)
    ensures var p := SplitLines(text);
      forall i :: 0 <= i < |p.req + p.nonreq| ==> IsEdgeLine((p.req + p.nonreq)[i])
  {
    var p := SplitLines(text);
    var edges := p.req + p.nonreq;
    SplitEdgeLines(text);
    forall i | 0 <= i < |edges| ensures IsEdgeLine(edges[i]) {
      if i >= |p.req| {
        assert edges[i] == p.nonreq[i - |p.req|];
      }
    }
  }

  /** The rebalanced file is the header through `LIST_REQUIRED_EDGES:`, the first half
      (rounded up) of all edge lines in their file order, a fresh
      `LIST_NON_REQUIRED_EDGES:` line, the remaining edge lines, and the footer; the edge
      lines come through word for word and only header and footer lines can be rewritten
      as count lines. */
  lemma RebalanceLayout(text: seq<string>)
    ensures var p := SplitLines(text);
      var edges := p.req + p.nonreq;
      var t := Target(|edges|);
      var o := Rebalanced(text);
      o.lines == FixAll(UpToReqMarker(p.header), t, |edges| - t, o.vehicleCount)
        + edges[..t] + [NonReqMarker + "\n"] + edges[t..]
        + FixAll(p.footer, t, |edges| - t, o.vehicleCount)
  {
    var p := SplitLines(text);
    var edges := p.req + p.nonreq;
    var t := Target(|edges|);
    var b := Balanced(p.req, p.nonreq);
    assert |b.0 + b.1| == |edges|;
    assert |b.0| == t && |b.1| == |edges| - t;
    assert b == (edges[..t], edges[t..]);
    var o := Rebalanced(text);
    var out := Rebuilt(p.header, b.0, b.1, p.footer);
    assert o == Outcome(FixAll(out, |b.0|, |b.1|, VehicleCount(DepotCount(out))), DepotCount(out),
                        VehicleCount(DepotCount(out)));
    SplitEdgesAll(text);
    FixAllRebuilt(UpToReqMarker(p.header), edges[..t], edges[t..], p.footer, t, |edges| - t, o.vehicleCount);
  }
}
