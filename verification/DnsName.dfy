/** Compressed domain names in packets (`crates/fw-logger/src/main.rs`): the parser with its jump
    budget, against an inductive reading of section 4.1.4 of RFC 1035. */
module DnsName {
  import opened Wrappers

  type Byte = b: nat | b < 256

  /** The limits of the parser; the reading of a name has its own. */
  const MAX_JUMPS := 5
  const MAX_LABEL := 63

  // ----- names as section 4.1.4 describes them

  /** How a name is read from some position: the zero byte, a label, or a pointer elsewhere. */
  datatype Reading = Root | Label(len: nat, rest: Reading) | Pointer(rest: Reading)

  predicate IsPointer(b: Byte) { b >= 0xC0 }

  function PointerTarget(msg: seq<Byte>, pos: nat): nat
    requires pos + 1 < |msg| && IsPointer(msg[pos])
  {
    var high: nat := msg[pos] - 0xC0;
    high * 256 + msg[pos + 1]
  }

  /** The bytes at `pos` can be read that way; offsets count from the start of `msg`. */
  predicate Reads(msg: seq<Byte>, pos: nat, d: Reading)
    decreases d
  {
    pos < |msg| &&
    match d
    case Root => msg[pos] == 0
    case Label(n, rest) => 1 <= n <= 63 && msg[pos] == n && pos + 1 + n <= |msg| && Reads(msg, pos + 1 + n, rest)
    case Pointer(rest) => IsPointer(msg[pos]) && pos + 1 < |msg| && Reads(msg, PointerTarget(msg, pos), rest)
  }

  function Pointers(d: Reading): nat {
    match d
    case Root => 0
    case Label(_, rest) => Pointers(rest)
    case Pointer(rest) => 1 + Pointers(rest)
  }

  /** The labels met, in order. */
  function Labels(msg: seq<Byte>, pos: nat, d: Reading): seq<seq<Byte>>
    requires Reads(msg, pos, d)
    decreases d
  {
    match d
    case Root => []
    case Label(n, rest) => [msg[pos + 1..pos + 1 + n]] + Labels(msg, pos + 1 + n, rest)
    case Pointer(rest) => Labels(msg, PointerTarget(msg, pos), rest)
  }

  /** Where the name ends in the message: after its zero byte or its first pointer. */
  function EndOf(pos: nat, d: Reading): nat
    decreases d
  {
    match d
    case Root => pos + 1
    case Label(n, rest) => EndOf(pos + 1 + n, rest)
    case Pointer(_) => pos + 2
  }

  /** At any position there is at most one reading. */
  lemma {:induction false} OneReading(msg: seq<Byte>, pos: nat, d: Reading, e: Reading)
    requires Reads(msg, pos, d) && Reads(msg, pos, e)
    ensures d == e
    decreases d
  {
    match d
    case Root =>
    case Label(n, rest) => OneReading(msg, pos + 1 + n, rest, e.rest);
    case Pointer(rest) => OneReading(msg, PointerTarget(msg, pos), rest, e.rest);
  }

  // ----- names as text

  predicate PlainChar(b: Byte) {
    48 <= b <= 57 || 65 <= b <= 90 || 97 <= b <= 122 || b == 45 || b == 95
  }

  function CharOf(b: Byte): char { if PlainChar(b) then b as char else '?' }

  function LabelText(l: seq<Byte>): (t: string)
    ensures |t| == |l|
  {
    seq(|l|, i requires 0 <= i < |l| => CharOf(l[i]))
  }

  /** A dot between labels. */
  function AddLabel(domain: string, l: seq<Byte>): string {
    (if domain == "" then "" else domain + ".") + LabelText(l)
  }

  /** What is appended to a name already read. */
  function Extend(domain: string, labels: seq<seq<Byte>>): string
    decreases labels
  {
    if labels == [] then domain
    else Extend(AddLabel(domain, labels[0]), labels[1..])
  }

  function NameText(labels: seq<seq<Byte>>): string { Extend("", labels) }

  // ----- the parser

  method LabelChars(payload: seq<Byte>, pos: nat, len: nat, domain: string) returns (r: string)
    requires pos + len <= |payload|
    ensures r == domain + LabelText(payload[pos..pos + len])
  {
    r := domain;
    var i := 0;
    while i < len
      invariant i <= len
      invariant r == domain + LabelText(payload[pos..pos + len])[..i]
    {
      r := r + [CharOf(payload[pos + i])];
      i := i + 1;
    }
  }

  /** The bytes at `start` read as a name with at least one label and at most five pointers. */
  ghost predicate Readable(payload: seq<Byte>, start: nat, d: Reading) {
    Reads(payload, start, d) && Pointers(d) <= 5 && Labels(payload, start, d) != []
  }

  /** Reading `e` from `pos` completes, after `jumps` jumps, the name that reads as `d` from
      `start` and of which `domain` is the text so far. */
  ghost predicate Completes(payload: seq<Byte>, start: nat, d: Reading, pos: nat, e: Reading, domain: string,
      jumps: nat)
  {
    Reads(payload, start, d) && Reads(payload, pos, e)
    && Pointers(d) == jumps + Pointers(e)
    && Extend(domain, Labels(payload, pos, e)) == NameText(Labels(payload, start, d))
    && (Labels(payload, start, d) == [] <==> domain == "" && Labels(payload, pos, e) == [])
  }

  lemma JumpCompletes(
    payload: seq<Byte>, start: nat, d: Reading, pos: nat, e: Reading, domain: string, jumps: nat)
    requires Completes(payload, start, d, pos, e, domain, jumps) && pos + 1 < |payload| && IsPointer(payload[pos])
    ensures e.Pointer? && EndOf(pos, e) == pos + 2
    ensures Completes(payload, start, d, PointerTarget(payload, pos), e.rest, domain, jumps + 1)
  {
  }

  lemma LabelCompletes(
    payload: seq<Byte>, start: nat, d: Reading, pos: nat, e: Reading, domain: string, jumps: nat)
    requires Completes(payload, start, d, pos, e, domain, jumps) && pos < |payload|
    requires 1 <= payload[pos] <= 63 && pos + 1 + payload[pos] <= |payload|
    ensures var next := pos + 1 + payload[pos];
            && e.Label? && EndOf(pos, e) == EndOf(next, e.rest)
            && Completes(payload, start, d, next, e.rest,
                         AddLabel(domain, payload[pos + 1..next]), jumps)
  {
    var labels := Labels(payload, pos, e);
    assert labels[0] == payload[pos + 1..pos + 1 + payload[pos]];
    assert labels[1..] == Labels(payload, pos + 1 + payload[pos], e.rest);
  }

  ghost predicate NoReading(payload: seq<Byte>, pos: nat) {
    forall e :: !Reads(payload, pos, e)
  }

  lemma NoReadingAfter(payload: seq<Byte>, pos: nat)
    requires NoReading(payload, pos) && pos < |payload|
    ensures 1 <= payload[pos] <= 63 && pos + 1 + payload[pos] <= |payload| ==>
            NoReading(payload, pos + 1 + payload[pos])
    ensures IsPointer(payload[pos]) && pos + 1 < |payload| ==> NoReading(payload, PointerTarget(payload, pos))
    ensures payload[pos] != 0
  {
    var n := payload[pos];
    assert n == 0 ==> Reads(payload, pos, Root);
    if 1 <= n <= 63 && pos + 1 + n <= |payload| {
      var next := pos + 1 + n;
      forall e ensures !Reads(payload, next, e) { assert Reads(payload, pos, Label(n, e)) == Reads(payload, next, e); }
    }
    if IsPointer(n) && pos + 1 < |payload| {
      var next := PointerTarget(payload, pos);
      forall e ensures !Reads(payload, next, e) { assert Reads(payload, pos, Pointer(e)) == Reads(payload, next, e); }
    }
  }

  /** What the parser comes to from `pos`, with the text so far, the jumps made, and the end of the name
      if a pointer already gave it. */
  function Parsed(payload: seq<Byte>, pos: nat, domain: string, jumps: nat, end: Option<nat>): Option<(string, nat)>
    decreases MAX_JUMPS - jumps, |payload| - pos
  {
    if pos >= |payload| then None
    else
      var n := payload[pos];
      if IsPointer(n) then
        if pos + 1 >= |payload| || jumps >= MAX_JUMPS then None
        else Parsed(payload, PointerTarget(payload, pos), domain, jumps + 1, if end.Some? then end else Some(pos + 2))
      else if n == 0 then
        if domain == "" then None else Some((domain, if end.Some? then end.value else pos + 1))
      else if n > MAX_LABEL || pos + 1 + n > |payload| then None
      else
        Parsed(payload, pos + 1 + n, AddLabel(domain, payload[pos + 1..pos + 1 + n]),
               jumps, end)
  }

  lemma {:induction false} NoneWithoutReading(
    payload: seq<Byte>, pos: nat, domain: string, jumps: nat, end: Option<nat>)
    requires NoReading(payload, pos)
    ensures Parsed(payload, pos, domain, jumps, end) == None
    decreases MAX_JUMPS - jumps, |payload| - pos
  {
    if pos < |payload| {
      NoReadingAfter(payload, pos);
      var n := payload[pos];
      if IsPointer(n) {
        if pos + 1 < |payload| && jumps < MAX_JUMPS {
          NoneWithoutReading(payload, PointerTarget(payload, pos), domain, jumps + 1,
                             if end.Some? then end else Some(pos + 2));
        }
      } else if n <= MAX_LABEL && pos + 1 + n <= |payload| {
        NoneWithoutReading(payload, pos + 1 + n,
                           AddLabel(domain, payload[pos + 1..pos + 1 + n]), jumps, end);
      }
    }
  }

  /** Where a reading ends, if no pointer said so before. */
  function EndIs(pos: nat, e: Reading, end: Option<nat>): nat { if end.Some? then end.value else EndOf(pos, e) }

  lemma ParsedAtLabel(
    payload: seq<Byte>, pos: nat, n: nat, rest: Reading, domain: string, jumps: nat, end: Option<nat>)
    requires Reads(payload, pos, Label(n, rest))
    ensures Parsed(payload, pos, domain, jumps, end) ==
            Parsed(payload, pos + 1 + n, AddLabel(domain, payload[pos + 1..pos + 1 + n]), jumps, end)
  {
  }

  lemma ParsedAtPointer(payload: seq<Byte>, pos: nat, rest: Reading, domain: string, jumps: nat, end: Option<nat>)
    requires Reads(payload, pos, Pointer(rest))
    ensures Parsed(payload, pos, domain, jumps, end) ==
            if jumps >= 5 then None
            else Parsed(payload, PointerTarget(payload, pos), domain, jumps + 1,
                        if end.Some? then end else Some(pos + 2))
  {
  }

  lemma {:induction false} ParsedIsReading(
    payload: seq<Byte>, start: nat, d: Reading, pos: nat, e: Reading, domain: string, jumps: nat, end: Option<nat>)
    requires Completes(payload, start, d, pos, e, domain, jumps) && EndIs(pos, e, end) == EndOf(start, d) && jumps <= 5
    ensures Parsed(payload, pos, domain, jumps, end) ==
            if Readable(payload, start, d) then Some((NameText(Labels(payload, start, d)), EndOf(start, d))) else None
    decreases e
  {
    match e
    case Root =>
      assert Labels(payload, pos, e) == [];
    case Label(n, rest) =>
      ParsedAtLabel(payload, pos, n, rest, domain, jumps, end);
      LabelCompletes(payload, start, d, pos, e, domain, jumps);
      ParsedIsReading(payload, start, d, pos + 1 + n, rest,
                      AddLabel(domain, payload[pos + 1..pos + 1 + n]), jumps, end);
    case Pointer(rest) =>
      ParsedAtPointer(payload, pos, rest, domain, jumps, end);
      JumpCompletes(payload, start, d, pos, e, domain, jumps);
      if jumps < 5 {
        ParsedIsReading(payload, start, d, PointerTarget(payload, pos), rest, domain, jumps + 1,
                        if end.Some? then end else Some(pos + 2));
      }
  }

  /** A name exactly when the bytes read as one; then the text of its labels and the position after
      it. */
  lemma ParsedIff(payload: seq<Byte>, start: nat)
    ensures var r := Parsed(payload, start, "", 0, None);
            && (r.Some? <==> exists d :: Readable(payload, start, d))
            && forall d :: Readable(payload, start, d) ==>
                 r == Some((NameText(Labels(payload, start, d)), EndOf(start, d)))
  {
    if d :| Reads(payload, start, d) {
      forall e | Readable(payload, start, e) ensures e == d { OneReading(payload, start, e, d); }
      ParsedIsReading(payload, start, d, start, d, "", 0, None);
    } else {
      NoneWithoutReading(payload, start, "", 0, None);
    }
  }

  /** The parser returns a name exactly when the bytes read as one; then it returns the text of the
      labels and the position after the name. */
  method ParseDnsName(payload: seq<Byte>, start: nat) returns (r: Option<(string, nat)>)
    ensures r.Some? <==> exists d :: Readable(payload, start, d)
    ensures forall d :: Readable(payload, start, d) ==>
            r == Some((NameText(Labels(payload, start, d)), EndOf(start, d)))
  {
    ParsedIff(payload, start);
    var pos: nat, domain, jumped, jumpPos: nat, jumps: nat := start, "", false, 0, 0;
    while true
      invariant jumps <= MAX_JUMPS
      invariant Parsed(payload, pos, domain, jumps, if jumped then Some(jumpPos) else None) ==
                Parsed(payload, start, "", 0, None)
      decreases MAX_JUMPS + 1 - jumps, |payload| - pos
    {
      if pos >= |payload| { return None; }
      var len := payload[pos];
      if IsPointer(len) {
        if pos + 1 >= |payload| { return None; }
        if !jumped { jumpPos := pos + 2; }
        pos := PointerTarget(payload, pos);
        jumped := true;
        jumps := jumps + 1;
        if jumps > MAX_JUMPS { return None; }
      } else if len == 0 {
        if domain == "" { return None; }
        return Some((domain, if jumped then jumpPos else pos + 1));
      } else {
        if len > MAX_LABEL { return None; }
        pos := pos + 1;
        if pos + len > |payload| { return None; }
        if domain != "" { domain := domain + "."; }
        domain := LabelChars(payload, pos, len, domain);
        pos := pos + len;
      }
    }
  }

  // ----- bounds

  /** A name ends inside the message, after where it starts. */
  lemma {:induction false} EndInside(msg: seq<Byte>, pos: nat, d: Reading)
    requires Reads(msg, pos, d)
    ensures pos < EndOf(pos, d) <= |msg|
    decreases d
  {
    if d.Label? { EndInside(msg, pos + 1 + d.len, d.rest); }
  }

  lemma {:induction false} ExtendLength(domain: string, labels: seq<seq<Byte>>)
    ensures |Extend(domain, labels)| <= |domain| + |LabelBytes(labels)|
    decreases labels
  {
    if labels != [] {
      ExtendLength(AddLabel(domain, labels[0]), labels[1..]);
    }
  }

  function Times(k: nat, n: nat): nat {
    if k == 0 then 0 else n + Times(k - 1, n)
  }

  lemma {:induction false} TimesUpTo(k: nat, m: nat, n: nat)
    requires k <= m
    ensures Times(k, n) <= Times(m, n)
    decreases m
  {
    if k < m { TimesUpTo(k, m - 1, n); }
  }

  lemma OneLabelMore(l: seq<Byte>, rest: seq<seq<Byte>>)
    ensures |LabelBytes([l] + rest)| == 1 + |l| + |LabelBytes(rest)|
  {
    assert ([l] + rest)[1..] == rest;
  }

  /** Between two pointers the position only moves forward, so each stretch of labels fits in the
      message once. */
  lemma {:induction false} LabelsFit(msg: seq<Byte>, pos: nat, d: Reading)
    requires Reads(msg, pos, d)
    ensures |LabelBytes(Labels(msg, pos, d))| < (|msg| - pos) + Times(Pointers(d), |msg|)
    decreases d
  {
    if d.Label? {
      LabelsFit(msg, pos + 1 + d.len, d.rest);
      OneLabelMore(msg[pos + 1..pos + 1 + d.len], Labels(msg, pos + 1 + d.len, d.rest));
    } else if d.Pointer? {
      LabelsFit(msg, PointerTarget(msg, pos), d.rest);
    }
  }

  /** Whatever the bytes, pointer loops included, the name has fewer characters than six times the
      message's length. */
  lemma NameIsBounded(msg: seq<Byte>, pos: nat, d: Reading)
    requires Readable(msg, pos, d)
    ensures |NameText(Labels(msg, pos, d))| < 6 * |msg|
  {
    LabelsFit(msg, pos, d);
    ExtendLength("", Labels(msg, pos, d));
    TimesUpTo(Pointers(d), 5, |msg|);
    FiveTimes(|msg|);
  }

  lemma FiveTimes(n: nat)
    ensures Times(5, n) == 5 * n
  {
    assert Times(1, n) == n;
    assert Times(2, n) == n + n;
    assert Times(3, n) == n + n + n;
    assert Times(4, n) == n + n + n + n;
  }

  // ----- written names are read back

  predicate LabelOk(l: seq<Byte>) { 1 <= |l| <= 63 }

  predicate LabelsOk(labels: seq<seq<Byte>>) { forall l :: l in labels ==> LabelOk(l) }

  lemma HeadOk(labels: seq<seq<Byte>>)
    requires LabelsOk(labels) && labels != []
    ensures LabelOk(labels[0]) && LabelsOk(labels[1..])
  {
    assert labels[0] in labels;
  }

  /** Section 3.1 of RFC 1035: each label after its length. */
  function LabelBytes(labels: seq<seq<Byte>>): seq<nat> {
    if labels == [] then [] else [|labels[0]|] + labels[0] + LabelBytes(labels[1..])
  }

  function PointerBytes(target: nat): seq<nat> { [0xC0 + target / 256, target % 256] }

  predicate Holds(msg: seq<Byte>, pos: nat, bytes: seq<nat>) {
    pos + |bytes| <= |msg| && msg[pos..pos + |bytes|] == bytes
  }

  function Prepend(labels: seq<seq<Byte>>, d: Reading): Reading {
    if labels == [] then d else Label(|labels[0]|, Prepend(labels[1..], d))
  }

  lemma HoldsParts(msg: seq<Byte>, pos: nat, a: seq<nat>, b: seq<nat>)
    requires Holds(msg, pos, a + b)
    ensures Holds(msg, pos, a) && Holds(msg, pos + |a|, b)
  {
    assert msg[pos..pos + |a|] == msg[pos..pos + |a + b|][..|a|];
    assert msg[pos + |a|..pos + |a| + |b|] == msg[pos..pos + |a + b|][|a|..];
    assert (a + b)[..|a|] == a && (a + b)[|a|..] == b;
  }

  lemma LabelHeld(msg: seq<Byte>, pos: nat, l: seq<Byte>, rest: seq<nat>)
    requires Holds(msg, pos, [|l|] + l + rest)
    ensures pos + 1 + |l| <= |msg| && msg[pos] == |l| && msg[pos + 1..pos + 1 + |l|] == l
    ensures Holds(msg, pos + 1 + |l|, rest)
  {
    HoldsParts(msg, pos, [|l|] + l, rest);
    HoldsParts(msg, pos, [|l|], l);
    assert msg[pos] == msg[pos..pos + 1][0];
  }

  /** `d` reads the given labels from `pos`, through that many pointers, and the name ends at `end`. */
  ghost predicate ReadsAs(msg: seq<Byte>, pos: nat, d: Reading, labels: seq<seq<Byte>>, pointers: nat, end: nat) {
    Reads(msg, pos, d) && Labels(msg, pos, d) == labels && Pointers(d) == pointers && EndOf(pos, d) == end
  }

  lemma LabelBefore(msg: seq<Byte>, pos: nat, l: seq<Byte>, d: Reading, labels: seq<seq<Byte>>, pointers: nat, end: nat)
    requires LabelOk(l) && pos + 1 + |l| <= |msg| && msg[pos] == |l| && msg[pos + 1..pos + 1 + |l|] == l
    requires ReadsAs(msg, pos + 1 + |l|, d, labels, pointers, end)
    ensures ReadsAs(msg, pos, Label(|l|, d), [l] + labels, pointers, end)
  {
  }

  /** The labels are there one after the other. */
  predicate HasLabels(msg: seq<Byte>, pos: nat, labels: seq<seq<Byte>>)
    decreases labels
  {
    labels == [] ||
    var l := labels[0];
    && LabelOk(l) && pos + 1 + |l| <= |msg| && msg[pos] == |l| && msg[pos + 1..pos + 1 + |l|] == l
    && HasLabels(msg, pos + 1 + |l|, labels[1..])
  }

  lemma {:induction false} WrittenLabels(msg: seq<Byte>, pos: nat, labels: seq<seq<Byte>>)
    requires LabelsOk(labels) && Holds(msg, pos, LabelBytes(labels))
    ensures HasLabels(msg, pos, labels)
    decreases labels
  {
    if labels != [] {
      FirstLabelHeld(msg, pos, labels);
      WrittenLabels(msg, pos + 1 + |labels[0]|, labels[1..]);
    }
  }

  lemma FirstLabelLength(labels: seq<seq<Byte>>)
    requires labels != []
    ensures |LabelBytes(labels)| == 1 + |labels[0]| + |LabelBytes(labels[1..])|
  {
  }

  lemma {:induction false} ReadAfterLabels(msg: seq<Byte>, pos: nat, before: seq<seq<Byte>>, at: nat, d: Reading,
      labels: seq<seq<Byte>>, pointers: nat, end: nat)
    requires HasLabels(msg, pos, before) && at == pos + |LabelBytes(before)|
    requires ReadsAs(msg, at, d, labels, pointers, end)
    ensures ReadsAs(msg, pos, Prepend(before, d), before + labels, pointers, end)
    decreases before
  {
    if before == [] {
      assert before + labels == labels;
    } else {
      var l, rest := before[0], before[1..];
      FirstLabelLength(before);
      ReadAfterLabels(msg, pos + 1 + |l|, rest, at, d, labels, pointers, end);
      LabelBefore(msg, pos, l, Prepend(rest, d), rest + labels, pointers, end);
      FirstThenRest(before, labels);
    }
  }

  lemma FirstThenRest(a: seq<seq<Byte>>, b: seq<seq<Byte>>)
    requires a != []
    ensures [a[0]] + (a[1..] + b) == a + b
  {
  }

  /** Labels written before something readable are read before it. */
  lemma LabelsThen(msg: seq<Byte>, pos: nat, before: seq<seq<Byte>>, d: Reading,
      labels: seq<seq<Byte>>, pointers: nat, end: nat)
    requires LabelsOk(before) && Holds(msg, pos, LabelBytes(before))
    requires ReadsAs(msg, pos + |LabelBytes(before)|, d, labels, pointers, end)
    ensures ReadsAs(msg, pos, Prepend(before, d), before + labels, pointers, end)
  {
    WrittenLabels(msg, pos, before);
    ReadAfterLabels(msg, pos, before, pos + |LabelBytes(before)|, d, labels, pointers, end);
  }

  lemma FirstLabelHeld(msg: seq<Byte>, pos: nat, labels: seq<seq<Byte>>)
    requires LabelsOk(labels) && labels != [] && Holds(msg, pos, LabelBytes(labels))
    ensures var l, rest := labels[0], labels[1..];
            && LabelOk(l) && LabelsOk(rest)
            && pos + 1 + |l| <= |msg| && msg[pos] == |l| && msg[pos + 1..pos + 1 + |l|] == l
            && pos + 1 + |l| + |LabelBytes(rest)| == pos + |LabelBytes(labels)|
            && Holds(msg, pos + 1 + |l|, LabelBytes(rest))
  {
    HeadOk(labels);
    LabelHeld(msg, pos, labels[0], LabelBytes(labels[1..]));
  }

  /** A name written as section 3.1 of RFC 1035 says, anywhere in a message, is read back: same
      labels, ending where the writing ended. */
  lemma WrittenNameIsRead(msg: seq<Byte>, pos: nat, labels: seq<seq<Byte>>)
    requires LabelsOk(labels) && Holds(msg, pos, LabelBytes(labels) + [0])
    ensures ReadsAs(msg, pos, Prepend(labels, Root), labels, 0, pos + |LabelBytes(labels) + [0]|)
  {
    var end := pos + |LabelBytes(labels)|;
    HoldsParts(msg, pos, LabelBytes(labels), [0]);
    assert msg[end] == msg[end..end + 1][0];
    LabelsThen(msg, pos, labels, Root, [], 0, end + 1);
    assert labels + [] == labels;
  }

  /** A name written as some labels and a pointer to a written name (section 4.1.4 of RFC 1035) is
      read as all the labels, ending just after the pointer. */
  lemma CompressedNameIsRead(msg: seq<Byte>, pos: nat, labels: seq<seq<Byte>>, target: nat, rest: seq<seq<Byte>>)
    requires LabelsOk(labels) && LabelsOk(rest) && target < 0x4000
    requires Holds(msg, pos, LabelBytes(labels) + PointerBytes(target))
    requires Holds(msg, target, LabelBytes(rest) + [0])
    ensures ReadsAs(msg, pos, Prepend(labels, Pointer(Prepend(rest, Root))), labels + rest, 1,
                    pos + |LabelBytes(labels)| + 2)
  {
    var end := pos + |LabelBytes(labels)|;
    var d := Prepend(rest, Root);
    HoldsParts(msg, pos, LabelBytes(labels), PointerBytes(target));
    PointerHeld(msg, end, target);
    WrittenNameIsRead(msg, target, rest);
    assert ReadsAs(msg, end, Pointer(d), rest, 1, end + 2);
    LabelsThen(msg, pos, labels, Pointer(d), rest, 1, end + 2);
  }

  lemma PointerHeld(msg: seq<Byte>, pos: nat, target: nat)
    requires target < 0x4000 && Holds(msg, pos, PointerBytes(target))
    ensures pos + 1 < |msg| && IsPointer(msg[pos]) && PointerTarget(msg, pos) == target
  {
    assert msg[pos] == msg[pos..pos + 2][0] && msg[pos + 1] == msg[pos..pos + 2][1];
  }

  // ----- the text of a name

  /** The labels' text with dots between them. */
  function Joined(labels: seq<seq<Byte>>): string
    requires labels != []
  {
    if |labels| == 1 then LabelText(labels[0]) else LabelText(labels[0]) + "." + Joined(labels[1..])
  }

  lemma {:induction false} ExtendJoins(domain: string, labels: seq<seq<Byte>>)
    requires labels != [] && LabelsOk(labels)
    ensures Extend(domain, labels) == (if domain == "" then "" else domain + ".") + Joined(labels)
    decreases labels
  {
    HeadOk(labels);
    if |labels| > 1 {
      ExtendJoins(AddLabel(domain, labels[0]), labels[1..]);
    }
  }

  ghost predicate Plain(labels: seq<seq<Byte>>) {
    LabelsOk(labels) && forall i, j :: 0 <= i < |labels| && 0 <= j < |labels[i]| ==> PlainChar(labels[i][j])
  }

  lemma InFirstLabel(labels: seq<seq<Byte>>, k: nat)
    requires labels != [] && k < |labels[0]|
    ensures k < |Joined(labels)| && Joined(labels)[k] == CharOf(labels[0][k])
  {
    assert |labels| > 1 ==> Joined(labels) == LabelText(labels[0]) + ("." + Joined(labels[1..]));
  }

  lemma AfterFirstLabel(labels: seq<seq<Byte>>)
    requires labels != []
    ensures |Joined(labels)| > |labels[0]| ==> Joined(labels)[|labels[0]|] == '.'
  {
    assert |labels| > 1 ==> Joined(labels) == LabelText(labels[0]) + ("." + Joined(labels[1..]));
  }

  lemma FirstLabelNotLonger(a: seq<seq<Byte>>, b: seq<seq<Byte>>)
    requires a != [] && b != [] && Plain(b) && Joined(a) == Joined(b)
    ensures |a[0]| >= |b[0]|
  {
    AfterFirstLabel(a);
    if |a[0]| < |b[0]| { InFirstLabel(b, |a[0]|); }
  }

  lemma FirstLabelSame(a: seq<seq<Byte>>, b: seq<seq<Byte>>)
    requires a != [] && b != [] && Plain(a) && Plain(b) && Joined(a) == Joined(b)
    ensures a[0] == b[0]
  {
    FirstLabelNotLonger(a, b);
    FirstLabelNotLonger(b, a);
    forall k | 0 <= k < |a[0]| ensures a[0][k] == b[0][k] {
      InFirstLabel(a, k);
      InFirstLabel(b, k);
    }
  }

  /** The logged text tells names apart, as long as their labels hold letters, digits, `-` and `_`
      only. */
  lemma {:induction false} TextTellsNamesApart(a: seq<seq<Byte>>, b: seq<seq<Byte>>)
    requires a != [] && b != [] && Plain(a) && Plain(b) && Joined(a) == Joined(b)
    ensures a == b
    decreases a
  {
    FirstLabelSame(a, b);
    if |a| > 1 && |b| > 1 {
      var k := |a[0]| + 1;
      assert Joined(a)[k..] == Joined(a[1..]) && Joined(b)[k..] == Joined(b[1..]);
      TextTellsNamesApart(a[1..], b[1..]);
      assert a == [a[0]] + a[1..] && b == [b[0]] + b[1..];
    }
  }

  // ----- where pointer offsets count from

  /** Without pointers, reading inside the packet is reading inside the DNS message alone. */
  lemma {:induction false} SameWithoutPointers(packet: seq<Byte>, start: nat, pos: nat, d: Reading)
    requires start <= |packet| && Pointers(d) == 0
    ensures Reads(packet, start + pos, d) <==> Reads(packet[start..], pos, d)
    ensures Reads(packet, start + pos, d) ==>
              Labels(packet, start + pos, d) == Labels(packet[start..], pos, d) &&
                EndOf(start + pos, d) == start + EndOf(pos, d)
    decreases d
  {
    var msg := packet[start..];
    if d.Label? {
      SameWithoutPointers(packet, start, pos + 1 + d.len, d.rest);
      if pos + 1 + d.len <= |msg| {
        assert packet[start + pos + 1..start + pos + 1 + d.len] == msg[pos + 1..pos + 1 + d.len];
      }
    }
  }

  // ----- names with a pointer

  /** The offset a reading's first pointer gives, and the reading behind it. */
  function FirstTarget(msg: seq<Byte>, pos: nat, d: Reading): nat
    requires Reads(msg, pos, d) && Pointers(d) > 0
    decreases d
  {
    match d
    case Label(n, rest) => FirstTarget(msg, pos + 1 + n, rest)
    case Pointer(_) => PointerTarget(msg, pos)
  }

  function Behind(d: Reading): Reading
    requires Pointers(d) > 0
  {
    match d
    case Label(_, rest) => Behind(rest)
    case Pointer(rest) => rest
  }

  /** The labels before the first pointer. */
  function Front(msg: seq<Byte>, pos: nat, d: Reading): seq<seq<Byte>>
    requires Reads(msg, pos, d) && Pointers(d) > 0
    decreases d
  {
    match d
    case Label(n, rest) => [msg[pos + 1..pos + 1 + n]] + Front(msg, pos + 1 + n, rest)
    case Pointer(_) => []
  }

  /** The reading with another one behind its first pointer. */
  function Exchange(d: Reading, f: Reading): Reading
    requires Pointers(d) > 0
  {
    match d
    case Label(n, rest) => Label(n, Exchange(rest, f))
    case Pointer(_) => Pointer(f)
  }

  lemma {:induction false} SplitAtPointer(msg: seq<Byte>, pos: nat, d: Reading)
    requires Reads(msg, pos, d) && Pointers(d) > 0
    ensures Reads(msg, FirstTarget(msg, pos, d), Behind(d))
    ensures Labels(msg, pos, d) == Front(msg, pos, d) + Labels(msg, FirstTarget(msg, pos, d), Behind(d))
    decreases d
  {
    if d.Label? { SplitAtPointer(msg, pos + 1 + d.len, d.rest); }
  }

  /** The message is what the packet has from `start` on. */
  predicate IsMessage(packet: seq<Byte>, start: nat, msg: seq<Byte>) {
    |packet| == start + |msg| && forall i :: 0 <= i < |msg| ==> msg[i] == packet[start + i]
  }

  lemma SameSlice(packet: seq<Byte>, start: nat, msg: seq<Byte>, pos: nat, n: nat)
    requires IsMessage(packet, start, msg) && pos + n <= |msg|
    ensures start + pos + n <= |packet| && packet[start + pos..start + pos + n] == msg[pos..pos + n]
  {
  }

  lemma SameByte(packet: seq<Byte>, start: nat, msg: seq<Byte>, pos: nat)
    requires IsMessage(packet, start, msg) && pos < |msg|
    ensures start + pos < |packet| && packet[start + pos] == msg[pos]
  {
  }

  lemma SameLabel(packet: seq<Byte>, start: nat, msg: seq<Byte>, pos: nat, n: nat, rest: Reading, e: Reading)
    requires IsMessage(packet, start, msg) && Reads(msg, pos, Label(n, rest)) && Reads(packet, start + pos + 1 + n, e)
    ensures Reads(packet, start + pos, Label(n, e))
    ensures Labels(packet, start + pos, Label(n, e)) ==
            [msg[pos + 1..pos + 1 + n]] + Labels(packet, start + pos + 1 + n, e)
  {
    SameByte(packet, start, msg, pos);
    SameSlice(packet, start, msg, pos + 1, n);
  }

  lemma SamePointer(packet: seq<Byte>, start: nat, msg: seq<Byte>, pos: nat)
    requires IsMessage(packet, start, msg) && pos + 1 < |msg| && IsPointer(msg[pos])
    ensures start + pos + 1 < |packet| && IsPointer(packet[start + pos])
    ensures PointerTarget(packet, start + pos) == PointerTarget(msg, pos)
  {
    SameByte(packet, start, msg, pos);
    SameByte(packet, start, msg, pos + 1);
  }

  /** The packet reads as a name with the labels and as many pointers. */
  ghost predicate ReadsIn(packet: seq<Byte>, pos: nat, e: Reading, labels: seq<seq<Byte>>, pointers: nat) {
    Reads(packet, pos, e) && Labels(packet, pos, e) == labels && Pointers(e) == pointers
  }

  lemma LabelGoesOn(packet: seq<Byte>, start: nat, msg: seq<Byte>, pos: nat, n: nat, rest: Reading, e: Reading,
      front: seq<seq<Byte>>, tail: seq<seq<Byte>>, pointers: nat)
    requires IsMessage(packet, start, msg) && Reads(msg, pos, Label(n, rest))
    requires ReadsIn(packet, start + pos + 1 + n, e, front + tail, pointers)
    ensures ReadsIn(packet, start + pos, Label(n, e), [msg[pos + 1..pos + 1 + n]] + front + tail, pointers)
  {
    SameLabel(packet, start, msg, pos, n, rest, e);
    var x := msg[pos + 1..pos + 1 + n];
    assert [x] + (front + tail) == [x] + front + tail;
  }

  /** Up to the first pointer, packet and message read alike: a reading of the packet goes on at the
      target counted from the packet's start, and any reading there completes one. */
  lemma {:induction false} PacketGoesOn(
    packet: seq<Byte>, start: nat, msg: seq<Byte>, pos: nat, d: Reading, f: Reading, tail: seq<seq<Byte>>)
    requires IsMessage(packet, start, msg) && Reads(msg, pos, d) && Pointers(d) > 0
    requires ReadsIn(packet, FirstTarget(msg, pos, d), f, tail, Pointers(f))
    ensures ReadsIn(packet, start + pos, Exchange(d, f), Front(msg, pos, d) + tail, 1 + Pointers(f))
    decreases d
  {
    match d
    case Label(n, rest) =>
      PacketGoesOn(packet, start, msg, pos + 1 + n, rest, f, tail);
      LabelGoesOn(packet, start, msg, pos, n, rest, Exchange(rest, f), Front(msg, pos + 1 + n, rest), tail,
                  1 + Pointers(f));
    case Pointer(_) =>
      SamePointer(packet, start, msg, pos);
      assert Front(msg, pos, d) + tail == tail;
  }

  lemma {:induction false} PacketReadsOnly(
    packet: seq<Byte>, start: nat, msg: seq<Byte>, pos: nat, d: Reading, e: Reading)
    requires IsMessage(packet, start, msg) && Reads(msg, pos, d) && Pointers(d) > 0 && Reads(packet, start + pos, e)
    ensures Pointers(e) > 0 && e == Exchange(d, Behind(e))
    ensures Reads(packet, FirstTarget(msg, pos, d), Behind(e))
    decreases d
  {
    SameByte(packet, start, msg, pos);
    match d
    case Label(n, rest) => PacketReadsOnly(packet, start, msg, pos + 1 + n, rest, e.rest);
    case Pointer(_) => SamePointer(packet, start, msg, pos);
  }

  /** The packet reads, at a position of the message, as a name with the given labels within the jump
      budget. */
  ghost predicate ReadsLabels(packet: seq<Byte>, pos: nat, budget: nat, labels: seq<seq<Byte>>) {
    exists e :: Reads(packet, pos, e) && Pointers(e) <= budget && Labels(packet, pos, e) == labels
  }

  /** A name with a pointer is read in the packet as the message means it, if and only if at the
      offset of its first pointer, counted from the start of the packet, there is a name with at most
      four pointers and the labels that the message has at that offset. */
  lemma PointerReadAsMeantIff(packet: seq<Byte>, start: nat, pos: nat, d: Reading)
    requires start <= |packet| && Reads(packet[start..], pos, d) && Pointers(d) > 0
    ensures Reads(packet[start..], FirstTarget(packet[start..], pos, d), Behind(d))
    ensures var msg := packet[start..];
            var t := FirstTarget(msg, pos, d);
            ReadsLabels(packet, start + pos, 5, Labels(msg, pos, d)) <==>
            ReadsLabels(packet, t, 4, Labels(msg, t, Behind(d)))
  {
    var msg := packet[start..];
    var t := FirstTarget(msg, pos, d);
    SplitAtPointer(msg, pos, d);
    var front, meant := Front(msg, pos, d), Labels(msg, t, Behind(d));
    if e :| Reads(packet, start + pos, e) && Pointers(e) <= 5 &&
            Labels(packet, start + pos, e) == Labels(msg, pos, d)
    {
      PacketReadsOnly(packet, start, msg, pos, d, e);
      PacketGoesOn(packet, start, msg, pos, d, Behind(e), Labels(packet, t, Behind(e)));
      SameTail(front, Labels(packet, t, Behind(e)), meant);
    }
    if f :| Reads(packet, t, f) && Pointers(f) <= 4 && Labels(packet, t, f) == meant {
      PacketGoesOn(packet, start, msg, pos, d, f, meant);
    }
  }

  lemma SameTail(front: seq<seq<Byte>>, a: seq<seq<Byte>>, b: seq<seq<Byte>>)
    requires front + a == front + b
    ensures a == b
  {
    assert (front + a)[|front|..] == a && (front + b)[|front|..] == b;
  }

  /** A byte is shown as its character if that is a letter, a digit, a hyphen or an underscore, and else
      as a question mark. */
  lemma ByteShown(b: Byte)
    ensures var c := b as char;
            CharOf(b) ==
            if '0' <= c <= '9' || 'A' <= c <= 'Z' || 'a' <= c <= 'z' || c == '-' || c == '_' then c else '?'
  {
  }
}
