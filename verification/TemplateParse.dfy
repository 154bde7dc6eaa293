/** Template markers and their three consumers (frontend/lib/template-parse.ts). */
module TemplateParse {
  import opened Options

  type Values = map<string, string>

  // ── The marker grammar, stated once ───────────────────────────────────────

  predicate Bracket(c: char) {
    c == '[' || c == ']'
  }

  /** body[start..end] is a marker: brackets around a nonempty, bracket-free interior. */
  ghost predicate IsMarker(body: string, start: int, end: int) {
    && 0 <= start && start + 2 < end <= |body|
    && body[start] == '[' && body[end - 1] == ']'
    && forall k :: start < k < end - 1 ==> !Bracket(body[k])
  }

  // ── The scanner: MARKER_RE.exec ───────────────────────────────────────────

  datatype Match = Match(index: nat, end: nat)

  function NextBracket(body: string, from: nat): (j: nat)
    requires from <= |body|
    ensures from <= j <= |body|
    decreases |body| - from
  {
    if from == |body| || Bracket(body[from]) then from else NextBracket(body, from + 1)
  }

  /** The end of the marker that starts here: the interior runs to the next bracket, which must close it. */
  function MarkerEnd(body: string, start: nat): (end: Option<nat>)
    requires start < |body|
    ensures end.Some? ==> start + 2 < end.value <= |body|
  {
    if body[start] != '[' then None
    else
      var j := NextBracket(body, start + 1);
      if j < |body| && body[j] == ']' && j > start + 1 then Some(j + 1) else None
  }

  /** The leftmost marker at or after lastIndex. */
  function Exec(body: string, from: nat): (m: Option<Match>)
    requires from <= |body|
    ensures m.Some? ==> from <= m.value.index && m.value.index + 2 < m.value.end <= |body|
    decreases |body| - from
  {
    if from == |body| then None
    else
      var end := MarkerEnd(body, from);
      if end.Some? then Some(Match(from, end.value)) else Exec(body, from + 1)
  }

  lemma {:induction false} NextBracketIsNext(body: string, from: nat)
    requires from <= |body|
    ensures var j := NextBracket(body, from);
            (j < |body| ==> Bracket(body[j])) && forall k :: from <= k < j ==> !Bracket(body[k])
    decreases |body| - from
  {
    if from < |body| && !Bracket(body[from]) { NextBracketIsNext(body, from + 1); }
  }

  lemma MarkerEndIsExact(body: string, start: nat, end: int)
    requires start < |body|
    ensures IsMarker(body, start, end) <==> end >= 0 && MarkerEnd(body, start) == Some(end)
  {
    NextBracketIsNext(body, start + 1);
    if IsMarker(body, start, end) {
      assert Bracket(body[end - 1]);
    }
  }

  /** The scanner finds a marker, and skips none. */
  lemma {:induction false} ExecFindsLeftmost(body: string, from: nat, start: nat, end: int)
    requires from <= |body|
    ensures var m := Exec(body, from);
            && (m.Some? ==> IsMarker(body, m.value.index, m.value.end))
            && (from <= start && IsMarker(body, start, end) ==> m.Some? && m.value.index <= start)
    decreases |body| - from
  {
    if from < |body| {
      MarkerEndIsExact(body, from, end);
      if MarkerEnd(body, from).Some? {
        MarkerEndIsExact(body, from, MarkerEnd(body, from).value);
      } else {
        ExecFindsLeftmost(body, from + 1, start, end);
      }
    }
  }

  function Inner(body: string, m: Match): string
    requires m.index + 2 < m.end <= |body|
  {
    body[m.index + 1..m.end - 1]
  }

  // ── Trimming and values ───────────────────────────────────────────────────

  /** The characters String.prototype.trim strips. */
  predicate IsSpace(c: char) {
    || '\t' <= c <= '\r' || c == ' ' || c == '\U{00A0}' || c == '\U{1680}' || '\U{2000}' <= c <= '\U{200A}'
    || c == '\U{2028}' || c == '\U{2029}' || c == '\U{202F}' || c == '\U{205F}' || c == '\U{3000}' || c == '\U{FEFF}'
  }

  function TrimStart(s: string): string {
    if s != "" && IsSpace(s[0]) then TrimStart(s[1..]) else s
  }

  function TrimEnd(s: string): string {
    if s != "" && IsSpace(s[|s| - 1]) then TrimEnd(s[..|s| - 1]) else s
  }

  function Trim(s: string): string {
    TrimEnd(TrimStart(s))
  }

  /** Trimming cuts exactly the white space at both ends. */
  lemma {:induction false} TrimIsExact(s: string) returns (i: nat, j: nat)
    ensures i <= j <= |s| && Trim(s) == s[i..j]
    ensures forall k :: 0 <= k < i || j <= k < |s| ==> IsSpace(s[k])
    ensures i < j ==> !IsSpace(s[i]) && !IsSpace(s[j - 1])
    ensures i == j ==> i == |s|
  {
    if s == "" {
      i, j := 0, 0;
    } else if IsSpace(s[0]) {
      i, j := TrimIsExact(s[1..]);
      assert s[1..][i..j] == s[i + 1..j + 1];
      assert forall k :: 1 <= k < |s| ==> s[k] == s[1..][k - 1];
      i, j := i + 1, j + 1;
    } else {
      i := 0;
      j := TrimEndIsExact(s);
    }
  }

  lemma {:induction false} TrimEndIsExact(s: string) returns (j: nat)
    requires s != "" && !IsSpace(s[0])
    ensures 0 < j <= |s| && TrimEnd(s) == s[..j] && !IsSpace(s[j - 1])
    ensures forall k :: j <= k < |s| ==> IsSpace(s[k])
  {
    j := |s|;
    if IsSpace(s[|s| - 1]) {
      j := TrimEndIsExact(s[..|s| - 1]);
    }
  }

  /** White space and line ends of ECMA-262, sections 12.2 and 12.3: what trimming a single character removes. */
  lemma TrimsExactlyThese(c: char)
    ensures Trim([c]) == "" <==>
              c in "\t\n\U{000B}\U{000C}\r \U{00A0}\U{1680}\U{2000}\U{2001}\U{2002}\U{2003}\U{2004}\U{2005}\U{2006}"
                   + "\U{2007}\U{2008}\U{2009}\U{200A}\U{2028}\U{2029}\U{202F}\U{205F}\U{3000}\U{FEFF}"
  {
    assert [c][1..] == "" && [c][..0] == "";
    assert TrimStart([c]) == if IsSpace(c) then "" else [c];
  }

  /** A value that is present and not blank, trimmed. */
  function Filled(values: Values, name: string): Option<string> {
    if name in values && Trim(values[name]) != "" then Some(Trim(values[name])) else None
  }

  // ── tokenizeBody ──────────────────────────────────────────────────────────

  datatype PreviewToken = Text(text: string) | Var(name: string, value: Option<string>)

  function TextToken(text: string): seq<PreviewToken> {
    if text == "" then [] else [Text(text)]
  }

  function VarToken(body: string, values: Values, m: Match): PreviewToken
    requires m.index + 2 < m.end <= |body|
  {
    var name := Trim(Inner(body, m));
    Var(name, Filled(values, name))
  }

  function Tokens(body: string, values: Values, from: nat): seq<PreviewToken>
    requires from <= |body|
    decreases |body| - from
  {
    var m := Exec(body, from);
    if m.None? then TextToken(body[from..])
    else TextToken(body[from..m.value.index]) + ([VarToken(body, values, m.value)] + Tokens(body, values, m.value.end))
  }

  method TokenizeBody(body: string, values: Values) returns (tokens: seq<PreviewToken>)
    ensures tokens == Tokens(body, values, 0)
  {
    tokens := [];
    var lastIndex := 0;
    var m := Exec(body, 0);
    while m.Some?
      invariant 0 <= lastIndex <= |body| && m == Exec(body, lastIndex)
      invariant tokens + Tokens(body, values, lastIndex) == Tokens(body, values, 0)
      decreases |body| - lastIndex
    {
      ghost var before := tokens;
      if m.value.index > lastIndex {
        tokens := tokens + [Text(body[lastIndex..m.value.index])];
      }
      var token := NextToken(body, values, m.value);
      tokens := tokens + [token];
      Regroup(before, TextToken(body[lastIndex..m.value.index]), token, Tokens(body, values, m.value.end), tokens);
      lastIndex := m.value.end;
      m := Exec(body, lastIndex);
    }
    if lastIndex < |body| {
      tokens := tokens + [Text(body[lastIndex..])];
    }
  }

  method NextToken(body: string, values: Values, m: Match) returns (token: PreviewToken)
    requires m.index + 2 < m.end <= |body|
    ensures token == VarToken(body, values, m)
  {
    var name := Trim(Inner(body, m));
    var filled := if name in values then Trim(values[name]) else "";
    token := Var(name, if filled != "" then Some(filled) else None);
  }

  lemma Regroup(before: seq<PreviewToken>, text: seq<PreviewToken>, token: PreviewToken, rest: seq<PreviewToken>,
                after: seq<PreviewToken>)
    requires after == before + text + [token] || (text == [] && after == before + [token])
    ensures after + rest == before + (text + ([token] + rest))
  {
  }

  // ── renderBody ────────────────────────────────────────────────────────────

  /** `body.replace(MARKER_RE, replacer)`, the replacer given the full marker and its interior. */
  function ReplaceMarkers(body: string, replacer: (string, string) -> string, from: nat): string
    requires from <= |body|
    decreases |body| - from
  {
    var m := Exec(body, from);
    if m.None? then body[from..]
    else body[from..m.value.index] + (replacer(body[m.value.index..m.value.end], Inner(body, m.value))
                                      + ReplaceMarkers(body, replacer, m.value.end))
  }

  function RenderBody(body: string, values: Values): string {
    ReplaceMarkers(body, (full, inner) => Filled(values, Trim(inner)).GetOr(full), 0)
  }

  // ── parseTemplateVariables ────────────────────────────────────────────────

  datatype ParsedVariable = ParsedVariable(name: string, position: nat)

  /** The labels of all markers, in order. */
  function Labels(body: string, from: nat): seq<string>
    requires from <= |body|
    decreases |body| - from
  {
    var m := Exec(body, from);
    if m.None? then [] else [Trim(Inner(body, m.value))] + Labels(body, m.value.end)
  }

  predicate Listed(out: seq<ParsedVariable>, name: string) {
    exists i :: 0 <= i < |out| && out[i].name == name
  }

  /** Nonempty labels numbered by first appearance. */
  function Number(labels: seq<string>): seq<ParsedVariable> {
    if labels == [] then []
    else
      var out, name := Number(labels[..|labels| - 1]), labels[|labels| - 1];
      if name == "" || Listed(out, name) then out else out + [ParsedVariable(name, |out| + 1)]
  }

  method ParseTemplateVariables(body: string) returns (out: seq<ParsedVariable>)
    ensures out == Number(Labels(body, 0))
  {
    var positionByLabel: map<string, nat> := map[];
    out := [];
    var lastIndex := 0;
    var m := Exec(body, 0);
    ghost var seen := [];
    while m.Some?
      invariant 0 <= lastIndex <= |body| && m == Exec(body, lastIndex)
      invariant seen + Labels(body, lastIndex) == Labels(body, 0)
      invariant out == Number(seen)
      invariant |positionByLabel| == |out|
      invariant forall l :: l in positionByLabel <==> Listed(out, l)
      decreases |body| - lastIndex
    {
      var name := Trim(Inner(body, m.value));
      RegroupLabels(seen, name, Labels(body, m.value.end));
      NumberAppend(seen, name);
      ListedAppend(out, ParsedVariable(name, |out| + 1));
      if name != "" && name !in positionByLabel {
        var position := |positionByLabel| + 1;
        positionByLabel := positionByLabel[name := position];
        out := out + [ParsedVariable(name, position)];
      }
      seen := seen + [name];
      lastIndex := m.value.end;
      m := Exec(body, lastIndex);
    }
    assert seen + [] == seen;
  }

  lemma RegroupLabels(seen: seq<string>, name: string, rest: seq<string>)
    ensures seen + ([name] + rest) == (seen + [name]) + rest
  {
  }

  lemma NumberAppend(labels: seq<string>, name: string)
    ensures var out := Number(labels);
            Number(labels + [name]) ==
              if name == "" || Listed(out, name) then out else out + [ParsedVariable(name, |out| + 1)]
  {
    assert (labels + [name])[..|labels|] == labels;
  }

  lemma ListedAppend(out: seq<ParsedVariable>, v: ParsedVariable)
    ensures forall l :: Listed(out + [v], l) <==> Listed(out, l) || l == v.name
  {
    forall l ensures Listed(out + [v], l) <==> Listed(out, l) || l == v.name {
      if Listed(out, l) {
        var i :| 0 <= i < |out| && out[i].name == l;
        assert (out + [v])[i].name == l;
      }
      assert (out + [v])[|out|] == v;
    }
  }

  // ── Source spans ──────────────────────────────────────────────────────────

  /** The stretch of the body a token was read from. */
  datatype Span = Span(start: nat, end: nat, isVar: bool)

  function TextSpan(start: nat, end: nat): seq<Span> {
    if start == end then [] else [Span(start, end, false)]
  }

  function Spans(body: string, from: nat): seq<Span>
    requires from <= |body|
    decreases |body| - from
  {
    var m := Exec(body, from);
    if m.None? then TextSpan(from, |body|)
    else TextSpan(from, m.value.index) + ([Span(m.value.index, m.value.end, true)] + Spans(body, m.value.end))
  }

  /** The spans cover body[from..to) without gap or overlap, in order, none empty. */
  ghost predicate Partition(spans: seq<Span>, from: int, to: int) {
    && (forall i :: 0 <= i < |spans| ==> spans[i].start < spans[i].end)
    && (forall i :: 0 <= i < |spans| - 1 ==> spans[i].end == spans[i + 1].start)
    && (if spans == [] then from == to else spans[0].start == from && spans[|spans| - 1].end == to)
  }

  /** A token was read from its span. */
  ghost predicate ReadFrom(body: string, values: Values, token: PreviewToken, span: Span) {
    && span.start <= span.end <= |body|
    && match token
       case Text(text) => !span.isVar && text == body[span.start..span.end]
       case Var(name, value) =>
         && span.isVar && IsMarker(body, span.start, span.end)
         && name == Trim(body[span.start + 1..span.end - 1]) && value == Filled(values, name)
  }

  ghost predicate AllReadFrom(body: string, values: Values, tokens: seq<PreviewToken>, spans: seq<Span>) {
    |tokens| == |spans| && forall i :: 0 <= i < |spans| ==> ReadFrom(body, values, tokens[i], spans[i])
  }

  lemma VarTokenRead(body: string, values: Values, m: Match)
    requires IsMarker(body, m.index, m.end)
    ensures ReadFrom(body, values, VarToken(body, values, m), Span(m.index, m.end, true))
  {
  }

  lemma TextTokenRead(body: string, values: Values, from: nat, to: nat)
    requires from <= to <= |body|
    ensures AllReadFrom(body, values, TextToken(body[from..to]), TextSpan(from, to))
  {
  }

  lemma ReadFromAppend(body: string, values: Values, t1: seq<PreviewToken>, s1: seq<Span>, token: PreviewToken,
                       span: Span,
                       t2: seq<PreviewToken>, s2: seq<Span>)
    requires AllReadFrom(body, values, t1, s1) && ReadFrom(body, values, token, span)
              && AllReadFrom(body, values, t2, s2)
    ensures AllReadFrom(body, values, t1 + ([token] + t2), s1 + ([span] + s2))
  {
  }

  lemma {:induction false} TokensReadFromSpans(body: string, values: Values, from: nat)
    requires from <= |body|
    ensures AllReadFrom(body, values, Tokens(body, values, from), Spans(body, from))
    decreases |body| - from
  {
    var m := Exec(body, from);
    if m.Some? {
      ExecFindsLeftmost(body, from, 0, 0);
      var index, end := m.value.index, m.value.end;
      TokensReadFromSpans(body, values, end);
      TextTokenRead(body, values, from, index);
      VarTokenRead(body, values, m.value);
      ReadFromAppend(body, values, TextToken(body[from..index]), TextSpan(from, index), VarToken(body, values, m.value),
                     Span(index, end, true), Tokens(body, values, end), Spans(body, end));
    } else {
      assert body[from..] == body[from..|body|];
      TextTokenRead(body, values, from, |body|);
    }
  }

  lemma {:induction false} SpansPartition(body: string, from: nat)
    requires from <= |body|
    ensures Partition(Spans(body, from), from, |body|)
    decreases |body| - from
  {
    var m := Exec(body, from);
    if m.Some? {
      SpansPartition(body, m.value.end);
    }
  }

  lemma VarSpanIn(body: string, from: nat, m: Match, start: nat, end: nat)
    requires from <= |body| && Exec(body, from) == Some(m)
    ensures Span(start, end, true) in Spans(body, from)
            <==> (start == m.index && end == m.end) || Span(start, end, true) in Spans(body, m.end)
  {
    var text, rest := TextSpan(from, m.index), Spans(body, m.end);
    assert Spans(body, from) == text + ([Span(m.index, m.end, true)] + rest);
    assert Span(start, end, true) !in text;
  }

  lemma {:induction false} VarSpansAreMarkers(body: string, from: nat, start: nat, end: nat)
    requires from <= |body|
    ensures Span(start, end, true) in Spans(body, from) <==> from <= start && IsMarker(body, start, end)
    decreases |body| - from
  {
    var m := Exec(body, from);
    ExecFindsLeftmost(body, from, start, end);
    if m.Some? {
      VarSpansAreMarkers(body, m.value.end, start, end);
      VarSpanIn(body, from, m.value, start, end);
      hide Spans, Exec;
      if m.value.index < start < m.value.end { NoMarkerInside(body, m.value.index, m.value.end, start, end); }
      MarkerEndIsExact(body, m.value.index, m.value.end);
      MarkerEndIsExact(body, m.value.index, end);
    }
  }

  /** Markers do not overlap. */
  lemma NoMarkerInside(body: string, index: nat, markerEnd: nat, start: nat, end: nat)
    requires IsMarker(body, index, markerEnd) && index < start < markerEnd
    ensures !IsMarker(body, start, end)
  {
    assert start < markerEnd - 1 ==> !Bracket(body[start]);
  }

  /**
   * Tokenizing loses and invents nothing: every token is read from its span, the spans partition the
   * body, and the variable spans are exactly the bracket pairs with a nonempty bracket-free interior.
   */
  lemma TokenizeIsExact(body: string, values: Values)
    ensures var tokens, spans := Tokens(body, values, 0), Spans(body, 0);
            && AllReadFrom(body, values, tokens, spans)
            && Partition(spans, 0, |body|)
            && forall start: nat, end: nat :: Span(start, end, true) in spans <==> IsMarker(body, start, end)
  {
    TokensReadFromSpans(body, values, 0);
    SpansPartition(body, 0);
    forall start: nat, end: nat ensures Span(start, end, true) in Spans(body, 0) <==> IsMarker(body, start, end) {
      VarSpansAreMarkers(body, 0, start, end);
    }
  }

  // ── The renderer agrees with the tokenizer ────────────────────────────────

  /** What the preview shows for a token: text verbatim, a filled value, or the source marker. */
  function Shown(body: string, token: PreviewToken, span: Span): string
    requires span.start <= span.end <= |body|
  {
    match token
    case Text(text) => text
    case Var(_, value) => value.GetOr(body[span.start..span.end])
  }

  ghost function ShownAll(body: string, tokens: seq<PreviewToken>, spans: seq<Span>): string
    requires |tokens| == |spans| && Within(body, spans)
  {
    if tokens == [] then ""
    else
      var last := |tokens| - 1;
      ShownAll(body, tokens[..last], spans[..last]) + Shown(body, tokens[last], spans[last])
  }

  ghost predicate Within(body: string, spans: seq<Span>) {
    forall i :: 0 <= i < |spans| ==> spans[i].start <= spans[i].end <= |body|
  }

  lemma {:induction false} ShownAppend(body: string, t1: seq<PreviewToken>, s1: seq<Span>, t2: seq<PreviewToken>,
                                       s2: seq<Span>)
    requires |t1| == |s1| && |t2| == |s2| && Within(body, s1) && Within(body, s2)
    ensures ShownAll(body, t1 + t2, s1 + s2) == ShownAll(body, t1, s1) + ShownAll(body, t2, s2)
  {
    hide Shown;
    if t2 == [] {
      assert t1 + t2 == t1 && s1 + s2 == s1;
    } else {
      var last, n := |t2| - 1, |t1 + t2| - 1;
      ShownAppend(body, t1, s1, t2[..last], s2[..last]);
      assert (t1 + t2)[..n] == t1 + t2[..last] && (t1 + t2)[n] == t2[last];
      assert (s1 + s2)[..n] == s1 + s2[..last] && (s1 + s2)[n] == s2[last];
    }
  }

  lemma ShownText(body: string, from: nat, to: nat)
    requires from <= to <= |body|
    ensures |TextToken(body[from..to])| == |TextSpan(from, to)| && Within(body, TextSpan(from, to))
    ensures ShownAll(body, TextToken(body[from..to]), TextSpan(from, to)) == body[from..to]
  {
    if from < to {
      assert TextToken(body[from..to]) == [Text(body[from..to])] && TextSpan(from, to) == [Span(from, to, false)];
      assert ShownAll(body, [], []) == "";
    }
  }

  lemma ShownOne(body: string, values: Values, m: Match)
    requires m.index + 2 < m.end <= |body|
    ensures ShownAll(body, [VarToken(body, values, m)], [Span(m.index, m.end, true)])
         == Filled(values, Trim(Inner(body, m))).GetOr(body[m.index..m.end])
  {
    var token, span := VarToken(body, values, m), Span(m.index, m.end, true);
    assert ShownAll(body, [token], [span]) == ShownAll(body, [], []) + Shown(body, token, span);
  }

  lemma AllReadIsWithin(body: string, values: Values, tokens: seq<PreviewToken>, spans: seq<Span>)
    requires AllReadFrom(body, values, tokens, spans)
    ensures Within(body, spans)
  {
    forall i | 0 <= i < |spans| ensures spans[i].start <= spans[i].end <= |body| {
      assert ReadFrom(body, values, tokens[i], spans[i]);
    }
  }

  lemma {:induction false} RenderFromAgrees(body: string, values: Values, from: nat)
    requires from <= |body|
    ensures |Tokens(body, values, from)| == |Spans(body, from)| && Within(body, Spans(body, from))
    ensures ReplaceMarkers(body, (full, inner) => Filled(values, Trim(inner)).GetOr(full), from)
         == ShownAll(body, Tokens(body, values, from), Spans(body, from))
    decreases |body| - from
  {
    hide ShownAll, Filled, Trim;
    TokensReadFromSpans(body, values, from);
    AllReadIsWithin(body, values, Tokens(body, values, from), Spans(body, from));
    var m := Exec(body, from);
    if m.None? {
      ShownText(body, from, |body|);
      assert body[from..] == body[from..|body|];
    } else {
      var index, end := m.value.index, m.value.end;
      var token, span := VarToken(body, values, m.value), Span(index, end, true);
      RenderFromAgrees(body, values, end);
      ShownText(body, from, index);
      ShownOne(body, values, m.value);
      ShownAppend(body, [token], [span], Tokens(body, values, end), Spans(body, end));
      ShownAppend(body, TextToken(body[from..index]), TextSpan(from, index),
                  [token] + Tokens(body, values, end), [span] + Spans(body, end));
    }
  }

  /** renderBody is the concatenation of what the preview shows for each token. */
  lemma RenderAgreesWithTokens(body: string, values: Values)
    ensures |Tokens(body, values, 0)| == |Spans(body, 0)| && Within(body, Spans(body, 0))
    ensures RenderBody(body, values) == ShownAll(body, Tokens(body, values, 0), Spans(body, 0))
  {
    RenderFromAgrees(body, values, 0);
  }

  // ── Filling in, said without the functions that do it ─────────────────────

  ghost predicate Blank(s: string) {
    forall i :: 0 <= i < |s| ==> IsSpace(s[i])
  }

  /** Around s[i..j] there is nothing but white space, and it neither starts nor ends with any. */
  ghost predicate TrimsAt(s: string, i: nat, j: nat) {
    && i <= j <= |s| && (forall k :: 0 <= k < i || j <= k < |s| ==> IsSpace(s[k]))
    && (i < j ==> !IsSpace(s[i]) && !IsSpace(s[j - 1]))
  }

  /** t is s without the white space at its ends. */
  ghost predicate IsTrim(s: string, t: string) {
    exists i: nat, j: nat :: TrimsAt(s, i, j) && t == s[i..j]
  }

  lemma TrimsAtOnlyOnce(s: string, i: nat, j: nat, i': nat, j': nat)
    requires TrimsAt(s, i, j) && TrimsAt(s, i', j')
    ensures s[i..j] == s[i'..j']
  {
    assert i < j <==> i' < j';
    assert i < j ==> i == i' && j == j';
  }

  lemma TrimMeets(s: string, t: string)
    ensures IsTrim(s, t) <==> t == Trim(s)
    ensures Blank(s) <==> Trim(s) == ""
  {
    var i, j := TrimIsExact(s);
    assert TrimsAt(s, i, j);
    if IsTrim(s, t) {
      var i': nat, j': nat :| TrimsAt(s, i', j') && t == s[i'..j'];
      TrimsAtOnlyOnce(s, i, j, i', j');
    }
    assert i < j ==> !IsSpace(s[i]);
  }

  /** The values hold, for the label between these brackets, v with nothing but white space around it. */
  ghost predicate Holds(values: Values, inner: string, v: string) {
    v != "" && exists name :: IsTrim(inner, name) && name in values && IsTrim(values[name], v)
  }

  /** They hold nothing for it, or a blank value. */
  ghost predicate Lacks(values: Values, inner: string) {
    exists name :: IsTrim(inner, name) && (name !in values || Blank(values[name]))
  }

  lemma FilledMeets(values: Values, inner: string)
    ensures forall v :: Holds(values, inner, v) <==> Filled(values, Trim(inner)) == Some(v)
    ensures Lacks(values, inner) <==> Filled(values, Trim(inner)) == None
  {
    hide IsTrim, Blank, Trim;
    var name := Trim(inner);
    forall l ensures IsTrim(inner, l) <==> l == name { TrimMeets(inner, l); }
    if name in values {
      forall v ensures IsTrim(values[name], v) <==> v == Trim(values[name]) { TrimMeets(values[name], v); }
      TrimMeets(values[name], "");
    }
    assert IsTrim(inner, name);
  }

  /**
   * What a marker's token carries, said of the results alone: v exactly when the values hold, for its
   * label, v with white space around it; nothing exactly when they hold none or a blank value.
   */
  lemma TokensAreFilled(body: string, values: Values, i: nat)
    requires i < |Spans(body, 0)| && Spans(body, 0)[i].isVar
    ensures var span, tokens := Spans(body, 0)[i], Tokens(body, values, 0);
            && IsMarker(body, span.start, span.end) && i < |tokens| && tokens[i].Var?
            && IsTrim(body[span.start + 1..span.end - 1], tokens[i].name)
            && (forall v :: Holds(values, body[span.start + 1..span.end - 1], v) <==> tokens[i].value == Some(v))
            && (Lacks(values, body[span.start + 1..span.end - 1]) <==> tokens[i].value == None)
  {
    hide Spans, Tokens, Filled, Trim, Holds, Lacks, IsTrim;
    TokensReadFromSpans(body, values, 0);
    var token, span := Tokens(body, values, 0)[i], Spans(body, 0)[i];
    assert ReadFrom(body, values, token, span);
    FilledMeets(values, body[span.start + 1..span.end - 1]);
    TrimMeets(body[span.start + 1..span.end - 1], token.name);
  }

  /** What rendering makes of a stretch of the body. */
  ghost predicate Renders(body: string, values: Values, span: Span, text: string) {
    && span.start <= span.end <= |body|
    && if !span.isVar then text == body[span.start..span.end]
       else
         && span.start + 1 <= span.end - 1
         && (|| Holds(values, body[span.start + 1..span.end - 1], text)
             || (Lacks(values, body[span.start + 1..span.end - 1]) && text == body[span.start..span.end]))
  }

  lemma ShownRenders(body: string, values: Values, token: PreviewToken, span: Span)
    requires ReadFrom(body, values, token, span)
    ensures Renders(body, values, span, Shown(body, token, span))
  {
    hide Filled, Trim, Holds, Lacks, IsTrim;
    if span.isVar { FilledMeets(values, body[span.start + 1..span.end - 1]); }
  }

  function Concatenated(texts: seq<string>): string {
    if texts == [] then "" else Concatenated(texts[..|texts| - 1]) + texts[|texts| - 1]
  }

  ghost predicate AllRender(body: string, values: Values, spans: seq<Span>, texts: seq<string>) {
    |texts| == |spans| && forall i :: 0 <= i < |spans| ==> Renders(body, values, spans[i], texts[i])
  }

  lemma AllRenderAppend(body: string, values: Values, spans: seq<Span>, texts: seq<string>, span: Span, text: string)
    requires AllRender(body, values, spans, texts) && Renders(body, values, span, text)
    ensures AllRender(body, values, spans + [span], texts + [text])
  {
    hide Renders;
  }

  lemma {:induction false} ShownTexts(body: string, values: Values, tokens: seq<PreviewToken>, spans: seq<Span>)
    returns (texts: seq<string>)
    requires AllReadFrom(body, values, tokens, spans) && Within(body, spans)
    ensures AllRender(body, values, spans, texts) && Concatenated(texts) == ShownAll(body, tokens, spans)
  {
    hide ReadFrom, Renders, Shown;
    texts := [];
    if tokens != [] {
      var last := |tokens| - 1;
      var front := ShownTexts(body, values, tokens[..last], spans[..last]);
      var text := Shown(body, tokens[last], spans[last]);
      ShownRenders(body, values, tokens[last], spans[last]);
      AllRenderAppend(body, values, spans[..last], front, spans[last], text);
      texts := front + [text];
      assert spans[..last] + [spans[last]] == spans && texts[..last] == front;
    }
  }

  /**
   * The rendered body, said of the result alone: over the stretches that partition the body, text as it
   * stands, for a marker whose label has a value that value without the white space around it, and for
   * any other the marker itself.
   */
  lemma RenderIsFilled(body: string, values: Values) returns (texts: seq<string>)
    ensures AllRender(body, values, Spans(body, 0), texts)
    ensures RenderBody(body, values) == Concatenated(texts)
  {
    RenderAgreesWithTokens(body, values);
    TokensReadFromSpans(body, values, 0);
    texts := ShownTexts(body, values, Tokens(body, values, 0), Spans(body, 0));
  }

  /** With nothing to fill in, rendering gives the body back unchanged. */
  lemma {:induction false} UnfilledIsUnchanged(body: string, values: Values, from: nat)
    requires from <= |body| && forall l :: l in values ==> Trim(values[l]) == ""
    ensures ReplaceMarkers(body, (full, inner) => Filled(values, Trim(inner)).GetOr(full), from) == body[from..]
    decreases |body| - from
  {
    var m := Exec(body, from);
    if m.Some? {
      UnfilledIsUnchanged(body, values, m.value.end);
      NeverFilled(values, Trim(Inner(body, m.value)));
      hide Filled, Trim, Inner;
      ThreeParts(body, from, m.value.index, m.value.end);
    }
  }

  lemma NeverFilled(values: Values, name: string)
    requires forall l :: l in values ==> Trim(values[l]) == ""
    ensures Filled(values, name) == None
  {
  }

  lemma ThreeParts(body: string, from: nat, index: nat, end: nat)
    requires from <= index <= end <= |body|
    ensures body[from..index] + (body[index..end] + body[end..]) == body[from..]
  {
  }

  // ── Numbering ─────────────────────────────────────────────────────────────

  function VarLabels(tokens: seq<PreviewToken>): seq<string> {
    if tokens == [] then []
    else
      var earlier, last := VarLabels(tokens[..|tokens| - 1]), tokens[|tokens| - 1];
      if last.Var? then earlier + [last.name] else earlier
  }

  lemma {:induction false} VarLabelsAppend(a: seq<PreviewToken>, b: seq<PreviewToken>)
    ensures VarLabels(a + b) == VarLabels(a) + VarLabels(b)
  {
    if b == [] {
      assert a + b == a;
    } else {
      var last, n := |b| - 1, |a + b| - 1;
      VarLabelsAppend(a, b[..last]);
      assert (a + b)[..n] == a + b[..last] && (a + b)[n] == b[last];
    }
  }

  lemma TextHasNoLabels(text: string)
    ensures VarLabels(TextToken(text)) == []
  {
    if text != "" { assert TextToken(text)[..0] == []; }
  }

  lemma OneLabel(body: string, values: Values, m: Match)
    requires m.index + 2 < m.end <= |body|
    ensures VarLabels([VarToken(body, values, m)]) == [Trim(Inner(body, m))]
  {
    assert [VarToken(body, values, m)][..0] == [];
  }

  /** The numbered labels are the labels of the tokenizer's variable tokens. */
  lemma {:induction false} LabelsAreTokenLabels(body: string, values: Values, from: nat)
    requires from <= |body|
    ensures VarLabels(Tokens(body, values, from)) == Labels(body, from)
    decreases |body| - from
  {
    hide VarLabels, VarToken, TextToken, Trim, Inner;
    var m := Exec(body, from);
    if m.Some? {
      LabelsAreTokenLabels(body, values, m.value.end);
      var text, token := TextToken(body[from..m.value.index]), VarToken(body, values, m.value);
      var rest := Tokens(body, values, m.value.end);
      VarLabelsAppend(text, [token] + rest);
      VarLabelsAppend([token], rest);
      TextHasNoLabels(body[from..m.value.index]);
      OneLabel(body, values, m.value);
    } else {
      TextHasNoLabels(body[from..]);
    }
  }

  /** First position of a label, the length when it does not occur. */
  function FirstAt(labels: seq<string>, name: string): nat {
    if labels == [] then 0 else if labels[0] == name then 0 else 1 + FirstAt(labels[1..], name)
  }

  lemma {:induction false} FirstAtAppend(labels: seq<string>, last: string, name: string)
    ensures name in labels ==> FirstAt(labels + [last], name) == FirstAt(labels, name) < |labels|
    ensures name !in labels ==> FirstAt(labels + [last], name) == |labels| + (if last == name then 0 else 1)
  {
    if labels == [] {
      assert ([last])[1..] == [];
      assert labels + [last] == [last];
    } else {
      assert (labels + [last])[1..] == labels[1..] + [last];
      FirstAtAppend(labels[1..], last, name);
    }
  }

  /**
   * Numbering: positions are exactly 1..n, the labels are the nonempty ones, each once, in the order
   * they first appear.
   */
  lemma {:induction false} NumberedByFirstAppearance(labels: seq<string>)
    ensures var out := Number(labels);
            && (forall i :: 0 <= i < |out| ==> out[i].position == i + 1)
            && (forall l :: Listed(out, l) <==> l != "" && l in labels)
            && (forall i, j :: 0 <= i < j < |out| ==> FirstAt(labels, out[i].name) < FirstAt(labels, out[j].name))
  {
    if labels != [] {
      var front, last := labels[..|labels| - 1], labels[|labels| - 1];
      assert labels == front + [last];
      NumberedByFirstAppearance(front);
      var out := Number(front);
      ListedAppend(out, ParsedVariable(last, |out| + 1));
      forall l ensures Listed(Number(labels), l) <==> l != "" && l in labels {
        assert l in labels <==> l in front || l == last;
      }
      forall i | 0 <= i < |out| ensures FirstAt(labels, out[i].name) == FirstAt(front, out[i].name) < |front| {
        assert Listed(out, out[i].name);
        FirstAtAppend(front, last, out[i].name);
      }
      FirstAtAppend(front, last, last);
    }
  }

  /** These are markers of the body from here on, in order, and the labels are what their brackets hold, trimmed. */
  ghost predicate Label(body: string, from: nat, markers: seq<Match>, labels: seq<string>) {
    && |markers| == |labels|
    && (forall k :: 0 <= k < |markers| ==> LabelledBy(body, from, markers[k], labels[k]))
    && (forall j, k :: 0 <= j < k < |markers| ==> markers[j].end <= markers[k].index)
  }

  ghost predicate LabelledBy(body: string, from: nat, m: Match, name: string) {
    from <= m.index && IsMarker(body, m.index, m.end) && IsTrim(body[m.index + 1..m.end - 1], name)
  }

  /** None is left out. */
  ghost predicate AllMarkers(body: string, from: nat, markers: seq<Match>) {
    forall start: nat, end: nat :: from <= start && IsMarker(body, start, end) ==> Match(start, end) in markers
  }

  lemma LabelCons(body: string, from: nat, m: Match, name: string, markers: seq<Match>, labels: seq<string>)
    requires LabelledBy(body, from, m, name) && Label(body, m.end, markers, labels)
    ensures Label(body, from, [m] + markers, [name] + labels)
  {
    hide IsTrim;
    forall k | 0 <= k < |[m] + markers| ensures LabelledBy(body, from, ([m] + markers)[k], ([name] + labels)[k]) {
      if k > 0 { assert LabelledBy(body, m.end, markers[k - 1], labels[k - 1]); }
    }
    assert forall k :: 0 <= k < |markers| ==> LabelledBy(body, m.end, markers[k], labels[k]);
  }

  lemma AllMarkersCons(body: string, from: nat, m: Match, markers: seq<Match>)
    requires from <= |body| && Exec(body, from) == Some(m) && AllMarkers(body, m.end, markers)
    ensures AllMarkers(body, from, [m] + markers)
  {
    hide Exec;
    forall start: nat, end: nat | from <= start && IsMarker(body, start, end)
      ensures Match(start, end) in [m] + markers
    {
      ExecFindsLeftmost(body, from, start, end);
      if m.index < start < m.end { NoMarkerInside(body, m.index, m.end, start, end); }
      MarkerEndIsExact(body, m.index, m.end);
      MarkerEndIsExact(body, m.index, end);
    }
  }

  /** The labels handed to the numbering are the trimmed interiors of all markers of the body, in order. */
  lemma {:induction false} LabelsAreMarkers(body: string, from: nat) returns (markers: seq<Match>)
    requires from <= |body|
    ensures Label(body, from, markers, Labels(body, from)) && AllMarkers(body, from, markers)
    decreases |body| - from
  {
    hide Trim, IsTrim, Exec;
    var found := Exec(body, from);
    markers := [];
    if found.Some? {
      var m := found.value;
      ExecFindsLeftmost(body, from, 0, 0);
      var rest := LabelsAreMarkers(body, m.end);
      TrimMeets(Inner(body, m), Trim(Inner(body, m)));
      LabelCons(body, from, m, Trim(Inner(body, m)), rest, Labels(body, m.end));
      AllMarkersCons(body, from, m, rest);
      markers := [m] + rest;
    } else {
      forall start: nat, end: nat ensures !(from <= start && IsMarker(body, start, end)) {
        ExecFindsLeftmost(body, from, start, end);
      }
    }
  }
}
