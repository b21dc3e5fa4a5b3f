/** The user-space half of a DNS event: from the wire-format name to dotted text
    (src/baseline/monitor_network.cpp), and what survives the trip. */
module DnsText {
  import opened Bytes
  import opened Options
  import opened DnsName

  /** The labels up to the zero octet or the end of the buffer; none if a length octet is too
      large or runs past the end. */
  function TextLabels(q: seq<Byte>, i: nat): Option<seq<Label>>
    decreases |q| - i
  {
    if i >= |q| || q[i] == 0 then Some([])
    else if q[i] > 63 || i + 1 + q[i] > |q| then None
    else Prepend([q[i + 1..i + 1 + q[i]]], TextLabels(q, i + 1 + q[i]))
  }

  method DnsQnameToString(qname: seq<Byte>, maxLen: nat) returns (out: seq<Byte>)
    requires maxLen <= |qname|
    ensures var labels := TextLabels(qname[..maxLen], 0);
      out == if labels.Some? then Joined(labels.value) else []
  {
    hide TextLabels;
    hide Joined;
    hide LabelsOk;
    out := [];
    var i := 0;
    ghost var q := qname[..maxLen];
    ghost var found: seq<Label> := [];
    NothingJoined(TextLabels(q, 0));
    while i < maxLen
      invariant TextLabels(q, 0) == Prepend(found, TextLabels(q, i))
      invariant LabelsOk(found) && out == Joined(found)
      decreases maxLen - i
    {
      var l := qname[i];
      TextLabelsStep(q, i);
      if l == 0 {
        break;
      }
      if l > 63 || i + 1 + l > maxLen {
        out := [];
        return;
      }
      assert q[i + 1..i + 1 + l] == qname[i + 1..i + 1 + l];
      JoinedGrows(found, qname[i + 1..i + 1 + l]);
      PrependTwice(found, qname[i + 1..i + 1 + l], TextLabels(q, i + 1 + l));
      if out != [] {
        out := out + [DOT];
      }
      out := out + qname[i + 1..i + 1 + l];
      found := found + [qname[i + 1..i + 1 + l]];
      i := i + 1 + l;
    }
    TextLabelsStep(q, i);
    assert found + [] == found;
  }

  lemma NothingJoined(labels: Option<seq<Label>>)
    ensures Joined([]) == [] && LabelsOk([]) && Prepend([], labels) == labels
  {
    assert labels.Some? ==> [] + labels.value == labels.value;
  }

  lemma TextLabelsStep(q: seq<Byte>, i: nat)
    ensures TextLabels(q, i)
         == if i >= |q| || q[i] == 0 then Some([])
            else if q[i] > 63 || i + 1 + q[i] > |q| then None
            else Prepend([q[i + 1..i + 1 + q[i]]], TextLabels(q, i + 1 + q[i]))
  {
  }

  lemma PrependTwice(found: seq<Label>, next: Label, rest: Option<seq<Label>>)
    ensures Prepend(found, Prepend([next], rest)) == Prepend(found + [next], rest)
  {
    assert rest.Some? ==> found + ([next] + rest.value) == (found + [next]) + rest.value;
  }

  lemma {:induction false} JoinedGrows(labels: seq<Label>, next: Label)
    requires LabelsOk(labels) && 1 <= |next| <= 63
    ensures LabelsOk(labels + [next])
    ensures Joined(labels) == [] <==> labels == []
    ensures Joined(labels + [next]) == if labels == [] then next else Joined(labels) + [0x2E] + next
  {
    if labels == [] {
      assert [] + [next] == [next];
    } else {
      var front, rest := labels[0], labels[1..];
      assert labels[0] in labels;
      assert forall l | l in rest :: l in labels;
      JoinedGrows(rest, next);
      JoinedHead(labels);
      JoinedHead(labels + [next]);
      assert (labels + [next])[1..] == rest + [next];
      hide Joined;
      DotsRegroup(front, Joined(rest), next);
    }
  }

  lemma DotsRegroup(front: Label, middle: seq<Byte>, next: Label)
    ensures front + [DOT] + (middle + [DOT] + next) == front + [DOT] + middle + [DOT] + next
  {
  }

  lemma JoinedHead(labels: seq<Label>)
    requires labels != []
    ensures Joined(labels) == if |labels| == 1 then labels[0] else labels[0] + [DOT] + Joined(labels[1..])
  {
  }

  // ----- what survives -----

  /** A wire name followed by anything is read back label for label. */
  lemma {:induction false} WireReadBack(q: seq<Byte>, i: nat, labels: seq<Label>)
    requires At(q, i, Wire(labels)) && LabelsOk(labels)
    ensures TextLabels(q, i) == Some(labels)
    decreases |labels|
  {
    hide At;
    hide Wire;
    FirstOctet(q, i, labels);
    if labels != [] {
      assert labels[0] in labels;
      WireReadBack(q, i + 1 + |labels[0]|, labels[1..]);
      assert labels == [labels[0]] + labels[1..];
    }
  }

  lemma PaddedBegins(name: seq<Byte>, labels: seq<Label>, w: seq<Byte>, pos: nat)
    requires At(w, pos, Wire(labels)) && name == w[pos..pos + |Wire(labels)|]
    ensures At(Padded(name), 0, Wire(labels))
  {
    hide Wire;
    forall k | 0 <= k < |Wire(labels)|
      ensures Padded(name)[0 + k] == Wire(labels)[k]
    {
      assert w[pos + k] == Wire(labels)[k];
    }
  }

  /** Every reported name reaches user space whole: the buffer has its full size, the decoder
      never takes its error branch, and the text is the walked labels joined by dots. */
  lemma NameSurvivesTransfer(w: seq<Byte>)
    requires Parsed(w).Some?
    ensures var domain := Parsed(w).value.domain;
      && Name(w).Some? && LegalName(Name(w).value)
      && |domain| == DOMAIN_SIZE
      && TextLabels(domain[..DOMAIN_SIZE], 0) == Name(w)
  {
    hide Name;
    hide At;
    hide Wire;
    hide LabelsOk;
    hide TextLabels;
    var labels := Name(w).value;
    var domain := Parsed(w).value.domain;
    ReportedIff(w, labels, Parsed(w).value);
    PaddedBegins(w[HEADER_LENGTH..HEADER_LENGTH + |Wire(labels)|], labels, w, HEADER_LENGTH);
    WireReadBack(domain, 0, labels);
    assert domain[..DOMAIN_SIZE] == domain;
  }

  // ----- what the text still tells -----

  predicate DotFree(labels: seq<Label>) {
    forall l | l in labels :: 0x2E !in l
  }

  /** The text determines the labels as long as none of them contains a dot itself. */
  lemma {:induction false} TextDeterminesLabels(a: seq<Label>, b: seq<Label>)
    requires LabelsOk(a) && LabelsOk(b) && DotFree(a) && DotFree(b)
    requires Joined(a) == Joined(b)
    ensures a == b
    decreases |a|
  {
    hide Joined;
    hide LabelsOk;
    hide DotFree;
    JoinedEmptyIff(a);
    JoinedEmptyIff(b);
    if a != [] && b != [] {
      FirstDot(a);
      FirstDot(b);
      if |a| > 1 && |b| > 1 {
        TextDeterminesLabels(a[1..], b[1..]);
      }
      assert a == [a[0]] + a[1..] && b == [b[0]] + b[1..];
    }
  }

  lemma JoinedEmptyIff(labels: seq<Label>)
    requires LabelsOk(labels)
    ensures Joined(labels) == [] <==> labels == []
  {
    assert labels != [] ==> labels[0] in labels;
  }

  /** The first label is what stands before the first dot. */
  lemma FirstDot(labels: seq<Label>)
    requires labels != [] && LabelsOk(labels) && DotFree(labels)
    ensures var n, text := |labels[0]|, Joined(labels);
      && n <= |text| && text[..n] == labels[0] && (forall k | 0 <= k < n :: text[k] != DOT)
      && (|labels| == 1 <==> |text| == n)
      && (|labels| > 1 ==> text[n] == DOT && text[n + 1..] == Joined(labels[1..]))
      && LabelsOk(labels[1..]) && DotFree(labels[1..])
  {
    var front := labels[0];
    TailKeeps(labels);
    JoinedHead(labels);
    hide Joined;
    hide LabelsOk;
    hide DotFree;
    var text := Joined(labels);
    if |labels| > 1 {
      var rest := Joined(labels[1..]);
      DotBehind(front, rest);
      assert text == front + [DOT] + rest;
    } else {
      assert text == front;
    }
  }

  lemma TailKeeps(labels: seq<Label>)
    requires labels != [] && LabelsOk(labels) && DotFree(labels)
    ensures DOT !in labels[0] && LabelsOk(labels[1..]) && DotFree(labels[1..])
  {
    assert labels[0] in labels;
    assert forall l | l in labels[1..] :: l in labels;
  }

  lemma DotBehind(front: Label, rest: seq<Byte>)
    requires DOT !in front
    ensures var text := front + [DOT] + rest;
      && text[..|front|] == front && text[|front|] == DOT && text[|front| + 1..] == rest
      && forall k | 0 <= k < |front| :: text[k] != DOT
  {
    var text := front + [DOT] + rest;
    forall k | 0 <= k < |front|
      ensures text[k] != DOT
    {
      assert text[k] == front[k] && front[k] in front;
    }
  }

  /** A dot inside a label is not told apart from a separator. */
  lemma DotInLabelIsLost()
    ensures Joined([[0x61, 0x2E, 0x62]]) == Joined([[0x61], [0x62]]) == [0x61, 0x2E, 0x62]
  {
    assert [[0x61], [0x62]][1..] == [[0x62]];
    assert Joined([[0x62]]) == [0x62];
  }

  /** The labels form a legal name that is written this way. */
  predicate Spells(labels: seq<Label>, text: seq<Byte>) {
    LegalName(labels) && Joined(labels) == text
  }

  ghost predicate Determined(text: seq<Byte>) {
    forall a, b | Spells(a, text) && Spells(b, text) :: a == b
  }

  lemma OneLabel(text: seq<Byte>)
    requires 1 <= |text| <= 63
    ensures Spells([text], text)
  {
    assert Wire([]) == [0];
    assert |Wire([text])| == |text| + 2;
  }

  lemma TwoLabels(text: seq<Byte>, k: nat)
    requires |text| <= 63 && 0 < k < |text| - 1 && text[k] == 0x2E
    ensures Spells([text[..k], text[k + 1..]], text)
  {
    var front, rest := text[..k], text[k + 1..];
    assert [front, rest][1..] == [rest];
    OneLabel(rest);
    assert Wire([front, rest]) == [k] + front + Wire([rest]);
    assert |Wire([rest])| == |rest| + 2;
    assert text == front + [DOT] + rest;
  }

  /** Two labels or more leave a dot with text on both sides. */
  lemma DotBetween(labels: seq<Label>)
    requires LabelsOk(labels) && |labels| > 1
    ensures var n, text := |labels[0]|, Joined(labels); 0 < n < |text| - 1 && text[n] == DOT
  {
    assert labels[0] in labels && labels[1] in labels;
    assert forall l | l in labels[1..] :: l in labels;
    JoinedEmptyIff(labels[1..]);
    var rest := Joined(labels[1..]);
    assert Joined(labels) == labels[0] + [DOT] + rest;
  }

  /** A text that is short enough for one label determines the legal name it spells if and only if
      it has no dot but at its ends. */
  lemma ShortTextDeterminedIff(text: seq<Byte>)
    requires 1 <= |text| <= 63
    ensures Determined(text) <==> forall k | 0 < k < |text| - 1 :: text[k] != 0x2E
  {
    OneLabel(text);
    if k :| 0 < k < |text| - 1 && text[k] == 0x2E {
      TwoLabels(text, k);
      assert |[text]| != |[text[..k], text[k + 1..]]|;
    } else {
      forall a | Spells(a, text)
        ensures a == [text]
      {
        if |a| > 1 {
          DotBetween(a);
        }
      }
    }
  }
}
