/** DNS query names on their way from the kernel to user space: the walker of
    bpf/net_watch.bpf.c (`parse_dns_query`) and the decoder of src/baseline/monitor_network.cpp. */
module DnsName {
  import opened Bytes
  import opened Options

  const PAYLOAD_MAX := 512
  const HEADER_LENGTH := 12
  const MAX_LABELS := 32
  const QNAME_MAX := 255
  const DOMAIN_SIZE := 256

  type Label = seq<Byte>

  /** What a reported event carries: the query type and the fixed-size name buffer. */
  datatype Query = Query(qtype: nat, domain: seq<Byte>)

  // ----- names on the wire -----

  /** A length octet before each label, a zero octet at the end (section 3.1 of RFC 1035). */
  function Wire(labels: seq<Label>): (w: seq<int>)
    ensures |w| > 0
  {
    if labels == [] then [0] else [|labels[0]|] + labels[0] + Wire(labels[1..])
  }

  predicate LabelsOk(labels: seq<Label>) {
    forall l | l in labels :: 1 <= |l| <= 63
  }

  /** The limits of section 2.3.4 of RFC 1035: labels of 1 to 63 octets, names of at most 255. */
  predicate LegalName(labels: seq<Label>) {
    LabelsOk(labels) && |Wire(labels)| <= 255
  }

  function Zeros(n: nat): (z: seq<Byte>)
    ensures |z| == n && forall i | 0 <= i < n :: z[i] == 0
  {
    if n == 0 then [] else [0] + Zeros(n - 1)
  }

  /** The labels as text, joined by dots. */
  function Joined(labels: seq<Label>): seq<Byte> {
    if labels == [] then []
    else if |labels| == 1 then labels[0]
    else labels[0] + [DOT] + Joined(labels[1..])
  }

  const DOT: Byte := 0x2E

  // ----- the walker -----

  function Min(a: nat, b: nat): nat {
    if a < b then a else b
  }

  /** What the walker may look at: the first 512 octets of the claimed length, as far as memory
      is readable. */
  function Window(mem: seq<Byte>, len: nat): seq<Byte> {
    mem[..Min(|mem|, Min(len, PAYLOAD_MAX))]
  }

  /** The window is where memory, the claimed length and 512 octets all reach. */
  lemma WindowIs(mem: seq<Byte>, len: nat)
    ensures Window(mem, len) <= mem && |Window(mem, len)| <= len && |Window(mem, len)| <= 512
    ensures |Window(mem, len)| in [|mem|, len, 512]
  {
  }

  /** The labels from `pos` on, looking at no more than `left` length octets. */
  function Labels(w: seq<Byte>, pos: nat, left: nat): Option<seq<Label>>
    decreases left
  {
    if left == 0 || pos >= |w| then None
    else
      var c := w[pos];
      if c == 0 then Some([])
      else if c > 63 || pos + 1 + c > |w| || pos + 1 + c >= HEADER_LENGTH + QNAME_MAX then None
      else
        var rest := Labels(w, pos + 1 + c, left - 1);
        if rest.None? then None else Some([w[pos + 1..pos + 1 + c]] + rest.value)
  }

  /** The name after the header. */
  function Name(w: seq<Byte>): Option<seq<Label>> {
    Labels(w, HEADER_LENGTH, MAX_LABELS)
  }

  /** Two octets, high first. */
  function Word(high: nat, low: nat): nat {
    high * 256 + low
  }

  function Parsed(w: seq<Byte>): Option<Query> {
    var labels := Name(w);
    if labels.None? then None
    else
      var end := HEADER_LENGTH + |Wire(labels.value)|;
      if end + 2 > |w| then None
      else Some(Query(Word(w[end], w[end + 1]), Padded(w[HEADER_LENGTH..end])))
  }

  /** The event is zeroed before the name is copied into it. */
  function Padded(name: seq<Byte>): seq<Byte> {
    name + Zeros(if |name| <= DOMAIN_SIZE then DOMAIN_SIZE - |name| else 0)
  }

  /** Reading `n` octets of user memory: nothing if any is unreadable. */
  method ProbeRead(mem: seq<Byte>, pos: nat, n: nat) returns (bytes: Option<seq<Byte>>)
    ensures bytes == if pos + n <= |mem| then Some(mem[pos..pos + n]) else None
  {
    bytes := if pos + n <= |mem| then Some(mem[pos..pos + n]) else None;
  }

  method ParseDnsQuery(mem: seq<Byte>, len: nat) returns (query: Option<Query>)
    ensures query == Parsed(Window(mem, len))
  {
    hide Name;
    hide Wire;
    hide Walked;
    hide Padded;
    var rdlen := if len > PAYLOAD_MAX then PAYLOAD_MAX else len;
    var pos := HEADER_LENGTH;
    var finished := false;
    var i := 0;
    ghost var w := Window(mem, len);
    ghost var walked: seq<Label> := [];
    query := None;
    WalkStart(w);
    while i < MAX_LABELS && !finished
      invariant 0 <= i <= MAX_LABELS
      invariant !finished ==> pos >= 0 && (Walked(w, walked, pos, i) || (pos > |w| && Name(w) == None))
      invariant finished ==> Name(w) == Some(walked) && pos == HEADER_LENGTH + |Wire(walked)| <= |w|
      invariant HEADER_LENGTH <= pos <= HEADER_LENGTH + QNAME_MAX
      invariant !finished ==> pos < HEADER_LENGTH + QNAME_MAX
    {
      if pos >= rdlen {
        WalkFails(w, walked, pos, i);
        return;
      }
      var octet := ProbeRead(mem, pos, 1);
      if octet.None? {
        WalkFails(w, walked, pos, i);
        return;
      }
      var c := octet.value[0];
      WindowAt(mem, len, pos, 1);
      if c == 0 {
        WalkEnds(w, walked, pos, i);
        pos := pos + 1;
        finished := true;
      } else if c >= 64 {
        WalkFails(w, walked, pos, i);
        return;
      } else {
        if pos + 1 + c > rdlen {
          WalkFails(w, walked, pos, i);
          return;
        }
        if pos + 1 + c - HEADER_LENGTH >= QNAME_MAX {
          WalkFails(w, walked, pos, i);
          return;
        }
        if pos + 1 + c > |w| {
          WalkFails(w, walked, pos, i);
        } else {
          WalkGoesOn(w, walked, pos, i);
          walked := walked + [w[pos + 1..pos + 1 + c]];
        }
        pos := pos + 1 + c;
      }
      i := i + 1;
    }
    if !finished {
      WalkFails(w, walked, pos, i);
      return;
    }
    if pos + 2 > rdlen {
      return;
    }
    var qt := ProbeRead(mem, pos, 2);
    if qt.None? {
      return;
    }
    var qnameLen := pos - HEADER_LENGTH;
    if qnameLen > DOMAIN_SIZE - 1 {
      qnameLen := DOMAIN_SIZE - 1;
    }
    var name := ProbeRead(mem, HEADER_LENGTH, qnameLen);
    if name.None? {
      return;
    }
    WindowAt(mem, len, HEADER_LENGTH, qnameLen);
    WindowAt(mem, len, pos, 2);
    query := Some(Query(Word(qt.value[0], qt.value[1]), Padded(name.value)));
  }

  /** Reading the window is reading memory. */
  lemma WindowAt(mem: seq<Byte>, len: nat, pos: nat, n: nat)
    requires pos + n <= |Window(mem, len)|
    ensures Window(mem, len)[pos..pos + n] == mem[pos..pos + n]
    ensures n > 0 ==> Window(mem, len)[pos] == mem[pos..pos + n][0]
    ensures n > 1 ==> Window(mem, len)[pos + 1] == mem[pos..pos + n][1]
  {
  }

  // ----- one step of the walk -----

  function Prepend(labels: seq<Label>, rest: Option<seq<Label>>): Option<seq<Label>> {
    if rest.None? then None else Some(labels + rest.value)
  }

  /** The labels found so far, with the walker at the next length octet. */
  ghost predicate Walked(w: seq<Byte>, walked: seq<Label>, pos: nat, i: nat) {
    && i <= MAX_LABELS
    && Name(w) == Prepend(walked, Labels(w, pos, MAX_LABELS - i))
    && pos == HEADER_LENGTH + |Wire(walked)| - 1
    && (pos <= |w| || walked == [])
  }

  lemma WalkStart(w: seq<Byte>)
    ensures Walked(w, [], HEADER_LENGTH, 0)
  {
    hide Labels;
    assert forall labels: seq<Label> :: [] + labels == labels;
  }

  /** Any of the walker's reasons to give up means the window holds no acceptable name. */
  lemma WalkFails(w: seq<Byte>, walked: seq<Label>, pos: nat, i: nat)
    requires i <= MAX_LABELS
    requires Walked(w, walked, pos, i) || Name(w) == None
    requires i == MAX_LABELS || pos >= |w| || w[pos] > 63
             || (w[pos] > 0 && (pos + 1 + w[pos] > |w| || pos + 1 + w[pos] >= HEADER_LENGTH + QNAME_MAX))
    ensures Name(w) == None
  {
    hide Name;
    LabelsStep(w, pos, MAX_LABELS - i);
    hide Labels;
  }

  lemma WalkEnds(w: seq<Byte>, walked: seq<Label>, pos: nat, i: nat)
    requires Walked(w, walked, pos, i) && i < MAX_LABELS && pos < |w| && w[pos] == 0
    ensures Name(w) == Some(walked)
    ensures pos + 1 == HEADER_LENGTH + |Wire(walked)| <= |w|
  {
    hide Name;
    hide Wire;
    LabelsStep(w, pos, MAX_LABELS - i);
    hide Labels;
    assert walked + [] == walked;
  }

  lemma LabelsStep(w: seq<Byte>, pos: nat, left: nat)
    ensures Labels(w, pos, left)
         == if left == 0 || pos >= |w| || w[pos] > 63 then None
            else if w[pos] == 0 then Some([])
            else if pos + 1 + w[pos] > |w| || pos + 1 + w[pos] >= HEADER_LENGTH + QNAME_MAX then None
            else Prepend([w[pos + 1..pos + 1 + w[pos]]], Labels(w, pos + 1 + w[pos], left - 1))
  {
  }

  lemma WalkGoesOn(w: seq<Byte>, walked: seq<Label>, pos: nat, i: nat)
    requires Walked(w, walked, pos, i) && i < MAX_LABELS && pos < |w| && 0 < w[pos] < 64
    requires pos + 1 + w[pos] <= |w| && pos + 1 + w[pos] < HEADER_LENGTH + QNAME_MAX
    ensures Walked(w, walked + [w[pos + 1..pos + 1 + w[pos]]], pos + 1 + w[pos], i + 1)
  {
    hide Name;
    hide Wire;
    hide Labels;
    var front := w[pos + 1..pos + 1 + w[pos]];
    var rest := Labels(w, pos + 1 + w[pos], MAX_LABELS - i - 1);
    LabelsStep(w, pos, MAX_LABELS - i);
    WireGrows(walked, front);
    if rest.Some? {
      assert walked + ([front] + rest.value) == (walked + [front]) + rest.value;
    }
  }

  lemma {:induction false} WireGrows(labels: seq<Label>, front: Label)
    ensures |Wire(labels + [front])| == |Wire(labels)| + 1 + |front|
  {
    if labels == [] {
      assert ([front])[1..] == [];
      assert [] + [front] == [front];
    } else {
      assert (labels + [front])[1..] == labels[1..] + [front];
      WireGrows(labels[1..], front);
    }
  }

  // ----- which queries are accepted -----

  /** The octets from `pos` on begin with `prefix`. */
  predicate At(w: seq<Byte>, pos: nat, prefix: seq<int>) {
    pos + |prefix| <= |w| && forall i | 0 <= i < |prefix| :: w[pos + i] == prefix[i]
  }

  lemma AtSplit(w: seq<Byte>, pos: nat, a: seq<int>, b: seq<int>)
    ensures At(w, pos, a + b) <==> At(w, pos, a) && At(w, pos + |a|, b)
  {
    if At(w, pos, a + b) {
      assert forall i | 0 <= i < |a| :: a[i] == (a + b)[i];
      forall i | 0 <= i < |b|
        ensures w[pos + |a| + i] == b[i]
      {
        assert w[pos + (|a| + i)] == (a + b)[|a| + i];
      }
    }
    if At(w, pos, a) && At(w, pos + |a|, b) {
      forall i | 0 <= i < |a + b|
        ensures w[pos + i] == (a + b)[i]
      {
        if i >= |a| {
          assert w[pos + |a| + (i - |a|)] == b[i - |a|];
        }
      }
    }
  }

  /** The walker finds exactly the names that stand in the window within its limits. */
  lemma {:induction false} LabelsIff(w: seq<Byte>, pos: nat, left: nat, labels: seq<Label>)
    requires pos < HEADER_LENGTH + QNAME_MAX
    ensures Labels(w, pos, left) == Some(labels) <==>
              At(w, pos, Wire(labels)) && LabelsOk(labels) && |labels| < left
              && pos + |Wire(labels)| <= HEADER_LENGTH + QNAME_MAX
    decreases left
  {
    hide At;
    hide Labels;
    hide Wire;
    hide LabelsOk;
    LabelsStep(w, pos, left);
    if labels == [] {
      WireOfNone();
      AtOctet(w, pos, 0);
    } else {
      var front, rest := labels[0], labels[1..];
      assert labels == [front] + rest;
      WireCons(w, pos, front, rest);
      if left > 0 && pos + 1 + |front| < HEADER_LENGTH + QNAME_MAX {
        LabelsIff(w, pos + 1 + |front|, left - 1, rest);
      }
      if left > 0 {
        LabelsCons(w, pos, left, front, rest);
      }
    }
  }

  lemma WireOfNone()
    ensures Wire([]) == [0] && LabelsOk([])
  {
  }

  lemma WireCons(w: seq<Byte>, pos: nat, front: Label, rest: seq<Label>)
    ensures |Wire([front] + rest)| == 1 + |front| + |Wire(rest)|
    ensures LabelsOk([front] + rest) <==> 1 <= |front| <= 63 && LabelsOk(rest)
    ensures At(w, pos, Wire([front] + rest)) <==>
              && pos < |w| && w[pos] == |front| && pos + 1 + |front| <= |w| && w[pos + 1..pos + 1 + |front|] == front
              && At(w, pos + 1 + |front|, Wire(rest))
  {
    hide At;
    var labels := [front] + rest;
    assert labels[1..] == rest;
    AtSplit(w, pos, [|front|], front + Wire(rest));
    AtSplit(w, pos + 1, front, Wire(rest));
    assert Wire(labels) == [|front|] + (front + Wire(rest));
    AtOctet(w, pos, |front|);
    AtLabel(w, pos + 1, front);
    hide Wire;
    assert LabelsOk(rest) && 1 <= |front| <= 63 ==> LabelsOk(labels);
  }

  lemma AtOctet(w: seq<Byte>, pos: nat, c: int)
    ensures At(w, pos, [c]) <==> pos < |w| && w[pos] == c
  {
    var one := [c];
    assert pos < |w| ==> w[pos + 0] == w[pos] && one[0] == c;
  }

  lemma AtLabel(w: seq<Byte>, pos: nat, front: Label)
    ensures At(w, pos, front) <==> pos + |front| <= |w| && w[pos..pos + |front|] == front
  {
    if pos + |front| <= |w| {
      var cut := w[pos..pos + |front|];
      assert forall i | 0 <= i < |front| :: w[pos + i] == cut[i];
    }
  }

  lemma LabelsCons(w: seq<Byte>, pos: nat, left: nat, front: Label, rest: seq<Label>)
    requires left > 0
    ensures Labels(w, pos, left) == Some([front] + rest) <==>
              && pos < |w| && w[pos] == |front| && 1 <= |front| <= 63
              && pos + 1 + |front| <= |w| && pos + 1 + |front| < HEADER_LENGTH + QNAME_MAX
              && w[pos + 1..pos + 1 + |front|] == front
              && Labels(w, pos + 1 + |front|, left - 1) == Some(rest)
  {
    hide Labels;
    LabelsStep(w, pos, left);
    assert ([front] + rest)[0] == front && ([front] + rest)[1..] == rest;
    if pos < |w| && 0 < w[pos] < 64 && pos + 1 + w[pos] <= |w| && pos + 1 + w[pos] < HEADER_LENGTH + QNAME_MAX {
      var found := w[pos + 1..pos + 1 + w[pos]];
      var tail := Labels(w, pos + 1 + w[pos], left - 1);
      if tail.Some? {
        assert ([found] + tail.value)[0] == found && ([found] + tail.value)[1..] == tail.value;
      }
    }
  }

  /** A query is reported exactly when a legal name of at most 31 labels, followed by two more
      octets, stands after the header in the window; the type is those two octets and the name
      buffer holds the whole name, unclamped. */
  lemma ReportedIff(w: seq<Byte>, labels: seq<Label>, query: Query)
    ensures Name(w) == Some(labels) && Parsed(w) == Some(query) <==>
              && LegalName(labels) && |labels| <= 31
              && At(w, 12, Wire(labels)) && 12 + |Wire(labels)| + 2 <= |w|
              && query.qtype == 256 * w[12 + |Wire(labels)|] as int + w[12 + |Wire(labels)| + 1] as int
              && query.domain == w[12..12 + |Wire(labels)|] + Zeros(256 - |Wire(labels)|)
  {
    hide Name;
    hide At;
    hide Wire;
    hide LabelsOk;
    NameIff(w, labels);
  }

  lemma NameIff(w: seq<Byte>, labels: seq<Label>)
    ensures Name(w) == Some(labels) <==> At(w, HEADER_LENGTH, Wire(labels)) && LegalName(labels) && |labels| <= 31
  {
    hide At;
    hide Wire;
    hide Labels;
    hide LabelsOk;
    LabelsIff(w, HEADER_LENGTH, MAX_LABELS, labels);
  }

  /** Longer names are legal but not reported. */
  lemma ManyLabelsRefused(w: seq<Byte>, labels: seq<Label>)
    requires At(w, HEADER_LENGTH, Wire(labels)) && LegalName(labels)
    ensures Name(w).None? <==> |labels| > 31
  {
    hide Name;
    hide At;
    hide Wire;
    NameIff(w, labels);
    if Name(w).Some? {
      NameIff(w, Name(w).value);
      WireUnique(w, HEADER_LENGTH, labels, Name(w).value);
    }
  }

  lemma {:induction false} WireUnique(w: seq<Byte>, pos: nat, a: seq<Label>, b: seq<Label>)
    requires At(w, pos, Wire(a)) && At(w, pos, Wire(b)) && LabelsOk(a) && LabelsOk(b)
    ensures a == b
    decreases |a|
  {
    hide At;
    hide Wire;
    hide LabelsOk;
    FirstOctet(w, pos, a);
    FirstOctet(w, pos, b);
    if a != [] && b != [] {
      WireUnique(w, pos + 1 + |a[0]|, a[1..], b[1..]);
      assert a == [a[0]] + a[1..] && b == [b[0]] + b[1..];
    }
  }

  lemma FirstOctet(w: seq<Byte>, pos: nat, labels: seq<Label>)
    requires At(w, pos, Wire(labels)) && LabelsOk(labels)
    ensures pos < |w| && (w[pos] == 0 <==> labels == [])
    ensures labels != [] ==>
              && LabelsOk(labels[1..])
              && w[pos] == |labels[0]| && pos + 1 + |labels[0]| <= |w| && w[pos + 1..pos + 1 + |labels[0]|] == labels[0]
              && At(w, pos + 1 + |labels[0]|, Wire(labels[1..]))
  {
    hide At;
    hide Wire;
    if labels == [] {
      WireOfNone();
      AtOctet(w, pos, 0);
    } else {
      assert labels == [labels[0]] + labels[1..];
      WireCons(w, pos, labels[0], labels[1..]);
    }
  }
}
