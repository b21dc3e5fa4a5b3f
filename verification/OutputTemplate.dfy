/** The output template compiler of src/detect/rule_engine.cpp: literal text with `%path`
    references, compiled to segments and rendered per event. */
module OutputTemplate {
  import opened Options
  import opened RuleAst
  import opened RuleEval
  import opened ConditionLexer
  import opened Decimal

  datatype Seg =
    | Literal(text: string)
    | FieldRef(field: FieldId)
    | RuleName
    | RulePriority

  datatype TemplateError =
    | UnknownReference(path: string)
    | ArrayReference(path: string)

  predicate IsPathChar(c: char) {
    IsAlnum(c) || c == '.' || c == '_'
  }

  /** Index of the first percent sign, or the length. */
  function PercentAt(s: string): (n: nat)
    ensures n <= |s|
    ensures n < |s| ==> s[n] == '%'
    ensures forall i | 0 <= i < n :: s[i] != '%'
  {
    if s == [] || s[0] == '%' then 0 else 1 + PercentAt(s[1..])
  }

  function PathLength(s: string): (n: nat)
    ensures n <= |s|
    ensures forall i | 0 <= i < n :: IsPathChar(s[i])
    ensures n < |s| ==> !IsPathChar(s[n])
  {
    if s == [] || !IsPathChar(s[0]) then 0 else 1 + PathLength(s[1..])
  }

  /** What a path after a percent sign refers to. */
  function Reference(path: string): Result<Seg, TemplateError> {
    if path == "rule.name" then Ok(RuleName)
    else if path == "rule.priority" then Ok(RulePriority)
    else
      match FieldIdFromPath(path)
      case None => Err(UnknownReference(path))
      case Some(id) => if IsArrayElem(id) then Err(ArrayReference(path)) else Ok(FieldRef(id))
  }

  function Prefixed(head: seq<Seg>, r: Result<seq<Seg>, TemplateError>): Result<seq<Seg>, TemplateError> {
    match r
    case Ok(segs) => Ok(head + segs)
    case Err(e) => Err(e)
  }

  function TextSegs(text: string): seq<Seg> {
    if text == "" then [] else [Literal(text)]
  }

  /** A template up to the end of its first reference: text, percent sign, path (possibly
      empty), and what follows. */
  datatype Piece = Piece(lead: string, path: string, rest: string)

  function FirstPiece(t: string): (p: Piece)
    requires PercentAt(t) < |t|
    ensures |p.lead| == PercentAt(t) && |p.rest| < |t|
    ensures t == p.lead + "%" + p.path + p.rest
  {
    var pct := PercentAt(t);
    var after := t[pct + 1..];
    var n := PathLength(after);
    Piece(t[..pct], after[..n], after[n..])
  }

  function Compile(t: string): Result<seq<Seg>, TemplateError>
    decreases |t|
  {
    if t == "" then Ok([])
    else if PercentAt(t) == |t| then Ok([Literal(t)])
    else
      var p := FirstPiece(t);
      if p.path == "" then Prefixed(TextSegs(p.lead) + [Literal("%")], Compile(p.rest))
      else
        match Reference(p.path)
        case Err(e) => Err(e)
        case Ok(seg) => Prefixed(TextSegs(p.lead) + [seg], Compile(p.rest))
  }

  lemma PrefixedTwice(a: seq<Seg>, b: seq<Seg>, r: Result<seq<Seg>, TemplateError>)
    ensures Prefixed(a, Prefixed(b, r)) == Prefixed(a + b, r)
  {
    if r.Ok? {
      assert a + (b + r.value) == (a + b) + r.value;
    }
  }

  lemma PrefixedNone(r: Result<seq<Seg>, TemplateError>)
    ensures Prefixed([], r) == r
  {
    if r.Ok? {
      assert [] + r.value == r.value;
    }
  }

  /** `tmpl.find('%', i)`, with the length for "not found". */
  method FindPercent(tmpl: string, i: nat) returns (pct: nat)
    requires i <= |tmpl|
    ensures i <= pct <= |tmpl| && pct - i == PercentAt(tmpl[i..])
  {
    pct := i;
    while pct < |tmpl| && tmpl[pct] != '%'
      invariant i <= pct <= |tmpl|
      invariant PercentAt(tmpl[i..]) == pct - i + PercentAt(tmpl[pct..])
    {
      assert tmpl[pct..][1..] == tmpl[pct + 1..];
      pct := pct + 1;
    }
  }

  /** End of the run of path characters from `i`. */
  method ScanPath(tmpl: string, i: nat) returns (j: nat)
    requires i <= |tmpl|
    ensures i <= j <= |tmpl| && j - i == PathLength(tmpl[i..])
  {
    j := i;
    while j < |tmpl| && IsPathChar(tmpl[j])
      invariant i <= j <= |tmpl|
      invariant PathLength(tmpl[i..]) == j - i + PathLength(tmpl[j..])
    {
      assert tmpl[j..][1..] == tmpl[j + 1..];
      j := j + 1;
    }
  }

  /** Bounds of the first reference from `i`: the percent sign and the end of its path. */
  method NextPiece(tmpl: string, i: nat, pct: nat) returns (j: nat)
    requires i <= pct < |tmpl| && pct - i == PercentAt(tmpl[i..])
    ensures pct < j <= |tmpl|
    ensures PercentAt(tmpl[i..]) < |tmpl[i..]|
    ensures FirstPiece(tmpl[i..]) == Piece(tmpl[i..pct], tmpl[pct + 1..j], tmpl[j..])
  {
    hide PathLength;
    hide PercentAt;
    j := ScanPath(tmpl, pct + 1);
    ghost var rest := tmpl[i..];
    ghost var after := rest[pct - i + 1..];
    assert after == tmpl[pct + 1..];
    assert rest[..pct - i] == tmpl[i..pct];
    assert after[..j - pct - 1] == tmpl[pct + 1..j] && after[j - pct - 1..] == tmpl[j..];
  }

  method ParseOutputTemplate(tmpl: string) returns (r: Result<seq<Seg>, TemplateError>)
    ensures r == Compile(tmpl)
  {
    hide Reference;
    hide FirstPiece;
    hide Prefixed;
    hide PercentAt;
    var out: seq<Seg> := [];
    var i := 0;
    assert tmpl[0..] == tmpl;
    PrefixedNone(Compile(tmpl));
    while i < |tmpl|
      invariant i <= |tmpl|
      invariant Compile(tmpl) == Prefixed(out, Compile(tmpl[i..]))
    {
      var pct := FindPercent(tmpl, i);
      if pct == |tmpl| {
        out := out + [Literal(tmpl[i..])];
        PrefixedOk(out[..|out| - 1], [Literal(tmpl[i..])]);
        return Ok(out);
      }
      var j := NextPiece(tmpl, i, pct);
      ghost var before := out;
      if pct > i {
        out := out + [Literal(tmpl[i..pct])];
      }
      var path := tmpl[pct + 1..j];
      var seg := if path == "" then Ok(Literal("%")) else Reference(path);
      if seg.Err? {
        PrefixedErr(before, seg.error);
        return Err(seg.error);
      }
      out := out + [seg.value];
      assert out == before + (TextSegs(tmpl[i..pct]) + [seg.value]);
      PrefixedTwice(before, TextSegs(tmpl[i..pct]) + [seg.value], Compile(tmpl[j..]));
      i := j;
    }
    assert tmpl[i..] == "" && out + [] == out;
    PrefixedOk(out, []);
    r := Ok(out);
  }

  lemma PrefixedOk(a: seq<Seg>, b: seq<Seg>)
    ensures Prefixed(a, Ok(b)) == Ok(a + b)
  {
  }

  lemma PrefixedErr(a: seq<Seg>, e: TemplateError)
    ensures Prefixed(a, Err(e)) == Err(e)
  {
  }

  // ----- properties -----

  function SegText(s: Seg): string {
    match s
    case Literal(text) => text
    case FieldRef(id) => "%" + PathOf(id)
    case RuleName => "%rule.name"
    case RulePriority => "%rule.priority"
  }

  /** The template text that a segment list stands for. */
  function SegsText(segs: seq<Seg>): string {
    if segs == [] then "" else SegText(segs[0]) + SegsText(segs[1..])
  }

  predicate NoArrays(segs: seq<Seg>) {
    forall i | 0 <= i < |segs| :: segs[i].FieldRef? ==> !IsArrayElem(segs[i].field)
  }

  lemma {:induction false} SegsTextConcat(a: seq<Seg>, b: seq<Seg>)
    ensures SegsText(a + b) == SegsText(a) + SegsText(b)
  {
    hide SegText;
    if a == [] {
      assert a + b == b;
    } else {
      var first := SegText(a[0]);
      SegsTextConcat(a[1..], b);
      assert (a + b)[1..] == a[1..] + b;
      assert first + (SegsText(a[1..]) + SegsText(b)) == (first + SegsText(a[1..])) + SegsText(b);
    }
  }

  lemma ReferenceText(path: string)
    ensures match Reference(path)
      case Ok(seg) => SegText(seg) == "%" + path && NoArrays([seg])
      case Err(_) => true
  {
    hide PathOf;
  }

  lemma TextSegsText(text: string)
    ensures SegsText(TextSegs(text)) == text && NoArrays(TextSegs(text))
  {
  }

  /** Text of a lead, one segment and the rest. */
  lemma ThreePartText(text: string, seg: Seg, more: seq<Seg>)
    ensures SegsText(TextSegs(text) + [seg] + more) == text + SegText(seg) + SegsText(more)
    ensures NoArrays([seg]) && NoArrays(more) ==> NoArrays(TextSegs(text) + [seg] + more)
  {
    hide SegText;
    TextSegsText(text);
    SegsTextConcat(TextSegs(text), [seg]);
    SegsTextConcat(TextSegs(text) + [seg], more);
    assert SegsText([seg]) == SegText(seg);
  }

  /** Printing undoes compiling, and no segment names an array field. */
  lemma {:induction false} PrintUndoesCompile(t: string)
    ensures match Compile(t)
      case Ok(segs) => SegsText(segs) == t && NoArrays(segs)
      case Err(_) => true
    decreases |t|
  {
    hide Reference;
    hide PathOf;
    hide SegsText;
    hide FirstPiece;
    hide PercentAt;
    if t == "" {
      EmptyText();
    } else if PercentAt(t) == |t| {
      LiteralText(t);
    } else if Compile(t).Ok? {
      var p := FirstPiece(t);
      PrintUndoesCompile(p.rest);
      if p.path == "" {
        ThreePartText(p.lead, Literal("%"), Compile(p.rest).value);
      } else {
        ReferenceText(p.path);
        ThreePartText(p.lead, Reference(p.path).value, Compile(p.rest).value);
      }
    }
  }

  lemma LiteralText(t: string)
    ensures SegsText([Literal(t)]) == t
  {
  }

  lemma EmptyText()
    ensures SegsText([]) == ""
  {
  }

  /** The path characters that follow position `k`. */
  function PathAfter(t: string, k: nat): string
    requires k < |t|
  {
    t[k + 1..][..PathLength(t[k + 1..])]
  }

  /** A percent sign whose path is not empty and refers to nothing renderable. */
  predicate BadReference(t: string, k: int) {
    0 <= k < |t| && t[k] == '%' && PathAfter(t, k) != "" && Reference(PathAfter(t, k)).Err?
  }

  lemma BadReferenceShift(head: string, rest: string, k: int)
    requires k >= 0
    ensures BadReference(rest, k) <==> BadReference(head + rest, |head| + k)
  {
    hide Reference;
    if k < |rest| {
      assert (head + rest)[|head| + k + 1..] == rest[k + 1..];
    }
  }

  lemma PercentNotPath(c: char)
    requires IsPathChar(c)
    ensures c != '%'
  {
  }

  /** Only the first percent sign of a template lies before what follows its first piece. */
  lemma FirstPiecePercent(t: string, k: int)
    requires PercentAt(t) < |t| && 0 <= k < |t| - |FirstPiece(t).rest|
    ensures t[k] == '%' <==> k == PercentAt(t)
    ensures PathAfter(t, PercentAt(t)) == FirstPiece(t).path
  {
    hide PathLength;
    hide PercentAt;
    hide IsPathChar;
    var pct := PercentAt(t);
    if k > pct {
      var after := t[pct + 1..];
      assert t[k] == after[k - pct - 1];
      PercentNotPath(after[k - pct - 1]);
    }
  }

  /** Compilation fails exactly when some percent sign starts a bad reference. */
  lemma {:induction false} CompileFailsIff(t: string)
    ensures Compile(t).Err? <==> exists k :: BadReference(t, k)
    decreases |t|
  {
    hide Reference;
    hide FirstPiece;
    hide PathAfter;
    if t != "" && PercentAt(t) < |t| {
      var p := FirstPiece(t);
      var head := p.lead + "%" + p.path;
      assert t == head + p.rest;
      FirstPiecePercent(t, PercentAt(t));
      CompileFailsIff(p.rest);
      forall k: int | BadReference(t, k) && k != PercentAt(t)
        ensures BadReference(p.rest, k - |head|)
      {
        if k < |head| { FirstPiecePercent(t, k); }
        BadReferenceShift(head, p.rest, k - |head|);
      }
      forall k: int | BadReference(p.rest, k)
        ensures BadReference(t, |head| + k)
      {
        BadReferenceShift(head, p.rest, k);
      }
      assert p.path != "" && Reference(p.path).Err? <==> BadReference(t, PercentAt(t));
    }
  }

  // ----- rendering -----

  /** A missing field renders as nothing. */
  function FieldText(ev: EventView, id: FieldId): string {
    match ResolveScalar(ev, id)
    case None => ""
    case Some(v) => if !v.has then "" else if IsNumber(id) then IntText(v.num) else v.str
  }

  function SegOutput(ev: EventView, name: string, priority: string, s: Seg): string {
    match s
    case Literal(text) => text
    case RuleName => name
    case RulePriority => priority
    case FieldRef(id) => FieldText(ev, id)
  }

  /** The alert text: segment outputs in order. */
  function Rendered(ev: EventView, name: string, priority: string, segs: seq<Seg>): string {
    if segs == [] then ""
    else
      var n := |segs| - 1;
      Rendered(ev, name, priority, segs[..n]) + SegOutput(ev, name, priority, segs[n])
  }
}
