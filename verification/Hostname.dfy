/**
 Host names from text to query: dns/src/validate.rs (the RFC 1123 test) and the query
 builder of dns/src/secure_resolver.rs. Text is a byte string.

 `QueryNameReadsBack` gives the exact condition under which the name in a query reads
 back as it went in, for every text; `HostnameQuery` says what accepted names gain.
 */
module Hostname {
  import opened Bytes
  import opened DnsName
  import opened DnsMessage

  const MAX_HOSTNAME_LEN := 253
  const MAX_LABEL_LEN := 63
  const HYPHEN: byte := 45

  // ---- Splitting at dots ----

  function FirstDot(s: seq<byte>): (k: nat)
    ensures k <= |s| && (k < |s| ==> s[k] == DOT)
    ensures forall i | 0 <= i < k :: s[i] != DOT
  {
    if s == [] || s[0] == DOT then 0
    else
      var k := FirstDot(s[1..]);
      assert forall i | 1 <= i < k + 1 :: s[i] == s[1..][i - 1];
      k + 1
  }

  /** `split('.')`. */
  function Split(s: seq<byte>): (parts: seq<Label>)
    ensures parts != []
    decreases |s|
  {
    var k := FirstDot(s);
    if k == |s| then [s] else [s[..k]] + Split(s[k + 1..])
  }

  lemma {:induction false} JoinSplit(s: seq<byte>)
    ensures Join(Split(s)) == s
    decreases |s|
  {
    var k := FirstDot(s);
    if k < |s| {
      var rest := s[k + 1..];
      JoinSplit(rest);
      assert Split(s) == [s[..k]] + Split(rest);
      JoinMore(s[..k], Split(rest));
      CutAtDot(s, k);
    }
  }

  lemma CutAtDot(s: seq<byte>, k: nat)
    requires k < |s| && s[k] == DOT
    ensures s == s[..k] + [DOT] + s[k + 1..]
  {
  }

  lemma JoinMore(t: Label, rest: seq<Label>)
    requires rest != []
    ensures Join([t] + rest) == t + [DOT] + Join(rest)
  {
    assert ([t] + rest)[1..] == rest;
  }

  lemma {:induction false} FinalDotGivesEmptyPart(s: seq<byte>)
    requires s != [] && s[|s| - 1] == DOT
    ensures Split(s)[|Split(s)| - 1] == []
    decreases |s|
  {
    var k := FirstDot(s);
    if k + 1 < |s| {
      FinalDotGivesEmptyPart(s[k + 1..]);
    }
  }

  // ---- The accepted names ----

  predicate IsDigit(b: byte) {
    48 <= b <= 57
  }

  predicate IsAlphanumeric(b: byte) {
    IsDigit(b) || 65 <= b <= 90 || 97 <= b <= 122
  }

  /** Letters, digits and inner hyphens, at most 63 of them. */
  predicate ValidateLabel(t: Label) {
    && t != [] && |t| <= MAX_LABEL_LEN
    && t[0] != HYPHEN && t[|t| - 1] != HYPHEN
    && forall b | b in t :: IsAlphanumeric(b) || b == HYPHEN
  }

  predicate AllDigits(t: Label) {
    forall b | b in t :: IsDigit(b)
  }

  function StripDot(s: seq<byte>): seq<byte> {
    if s != [] && s[|s| - 1] == DOT then s[..|s| - 1] else s
  }

  /** One final dot is allowed; the last label must not look like the end of an IPv4 address. */
  predicate IsHostname(name: seq<byte>) {
    var s := StripDot(name);
    var parts := Split(s);
    && s != [] && |s| <= MAX_HOSTNAME_LEN
    && (forall t | t in parts :: ValidateLabel(t))
    && !AllDigits(parts[|parts| - 1])
  }

  method ValidateHostname(name: seq<byte>) returns (ok: bool)
    ensures ok <==> IsHostname(name)
  {
    var s := StripDot(name);
    if s == [] || |s| > MAX_HOSTNAME_LEN {
      return false;
    }
    var lastLabelNumeric := true;
    var hasLabel := false;
    var parts := Split(s);
    for i := 0 to |parts|
      invariant forall t | t in parts[..i] :: ValidateLabel(t)
      invariant hasLabel <==> i > 0
      invariant i > 0 ==> lastLabelNumeric == AllDigits(parts[i - 1])
    {
      if !ValidateLabel(parts[i]) {
        return false;
      }
      assert parts[..i + 1] == parts[..i] + [parts[i]];
      lastLabelNumeric := AllDigits(parts[i]);
      hasLabel := true;
    }
    assert parts[..|parts|] == parts;
    return hasLabel && !lastLabelNumeric;
  }

  // ---- The query ----

  function NonEmpty(parts: seq<Label>): seq<Label> {
    if parts == [] then []
    else (if parts[0] == [] then [] else [parts[0]]) + NonEmpty(parts[1..])
  }

  /** The labels a query carries for `host`. */
  function LabelsOf(host: seq<byte>): seq<Label> {
    NonEmpty(Split(TrimDots(host)))
  }

  /** The length byte keeps only the low eight bits of a label's length. */
  function LabelBytes(labels: seq<Label>): seq<byte> {
    if labels == [] then [] else [|labels[0]| % 256] + labels[0] + LabelBytes(labels[1..])
  }

  function EncodedName(host: seq<byte>): seq<byte> {
    LabelBytes(LabelsOf(host)) + [0]
  }

  /** Recursion desired, one question of class IN. */
  function QueryBytes(host: seq<byte>, qtype: u16, id: u16): seq<byte> {
    HeaderBytes(id, 0x0100, 1, 0, 0, 0) + (EncodedName(host) + (U16Bytes(qtype) + U16Bytes(1)))
  }

  lemma {:induction false} NonEmptyOf(parts: seq<Label>)
    ensures forall t | t in NonEmpty(parts) :: t != []
    ensures (forall t | t in parts :: t != []) ==> NonEmpty(parts) == parts
  {
    if parts != [] {
      NonEmptyOf(parts[1..]);
      assert forall t | t in parts[1..] :: t in parts;
      assert parts == [parts[0]] + parts[1..];
      assert parts[0] in parts;
    }
  }

  /** Short labels read back. */
  lemma {:induction false} ShortLabelsReadBack(buf: seq<byte>, pos: nat, labels: seq<Label>)
    requires At(buf, pos, LabelBytes(labels) + [0])
    requires forall t | t in labels :: IsLabel(t)
    ensures DecodeAt(buf, pos, 0) == Some(Decoded(labels, pos + |LabelBytes(labels)| + 1))
    decreases |labels|
  {
    if labels == [] {
      AtByte(buf, pos, [] + [0], 0);
    } else {
      hide At, DecodeAt;
      var t := labels[0];
      FirstLabelInPlace(buf, pos, labels);
      ShortLabelsReadBack(buf, pos + 1 + |t|, labels[1..]);
      assert labels == [t] + labels[1..];
      LabelStep(buf, pos, t, labels[1..], pos + |LabelBytes(labels)| + 1);
    }
  }

  lemma LabelStep(buf: seq<byte>, pos: nat, t: Label, rest: seq<Label>, next: nat)
    requires pos + 1 + |t| <= |buf| && IsLabel(t)
    requires buf[pos] == |t| % 256 && buf[pos + 1..pos + 1 + |t|] == t
    requires DecodeAt(buf, pos + 1 + |t|, 0) == Some(Decoded(rest, next))
    ensures DecodeAt(buf, pos, 0) == Some(Decoded([t] + rest, next))
  {
  }

  lemma FirstLabelInPlace(buf: seq<byte>, pos: nat, labels: seq<Label>)
    requires labels != [] && At(buf, pos, LabelBytes(labels) + [0])
    ensures pos + 1 + |labels[0]| <= |buf|
    ensures buf[pos] == |labels[0]| % 256 && buf[pos + 1..pos + 1 + |labels[0]|] == labels[0]
    ensures At(buf, pos + 1 + |labels[0]|, LabelBytes(labels[1..]) + [0])
  {
    var t, rest := labels[0], LabelBytes(labels[1..]);
    assert LabelBytes(labels) == ([|t| % 256] + t) + rest;
    hide LabelBytes;
    Regroup([|t| % 256], t, rest, [0]);
    PrefixInPlace(buf, pos, |t| % 256, t, rest + [0]);
  }

  lemma PrefixInPlace(buf: seq<byte>, pos: nat, n: byte, t: Label, rest: seq<byte>)
    requires At(buf, pos, [n] + (t + rest))
    ensures pos + 1 + |t| <= |buf| && buf[pos] == n && buf[pos + 1..pos + 1 + |t|] == t
    ensures At(buf, pos + 1 + |t|, rest)
  {
    AtSplit(buf, pos, [n], t + rest);
    AtSplit(buf, pos + 1, t, rest);
    AtByte(buf, pos, [n], 0);
  }

  lemma Regroup(a: seq<byte>, b: seq<byte>, c: seq<byte>, d: seq<byte>)
    ensures ((a + b) + c) + d == a + (b + (c + d))
  {
  }

  /** A label of 192 bytes or more is never read back in its place. */
  lemma {:induction false} LongLabelsDoNot(buf: seq<byte>, pos: nat, labels: seq<Label>)
    requires At(buf, pos, LabelBytes(labels) + [0])
    requires forall t | t in labels :: t != []
    requires DecodeAt(buf, pos, 0) == Some(Decoded(labels, pos + |LabelBytes(labels)| + 1))
    ensures forall t | t in labels :: IsLabel(t)
    decreases |labels|
  {
    hide At, DecodeAt, LabelBytes;
    if labels != [] {
      var t := labels[0];
      FirstLabelInPlace(buf, pos, labels);
      assert t in labels && forall u | u in labels[1..] :: u in labels;
      FirstLabelReadBack(buf, pos, labels);
      LongLabelsDoNot(buf, pos + 1 + |t|, labels[1..]);
    }
  }

  lemma FirstLabelReadBack(buf: seq<byte>, pos: nat, labels: seq<Label>)
    requires labels != [] && labels[0] != []
    requires pos + 1 + |labels[0]| <= |buf| && buf[pos] == |labels[0]| % 256
    requires DecodeAt(buf, pos, 0) == Some(Decoded(labels, pos + |LabelBytes(labels)| + 1))
    ensures IsLabel(labels[0])
    ensures DecodeAt(buf, pos + 1 + |labels[0]|, 0)
            == Some(Decoded(labels[1..], pos + 1 + |labels[0]| + |LabelBytes(labels[1..])| + 1))
  {
    var t, next := labels[0], pos + |LabelBytes(labels)| + 1;
    assert next == pos + 1 + |t| + |LabelBytes(labels[1..])| + 1;
    hide LabelBytes;
    FirstStep(buf, pos, labels, next);
  }

  lemma FirstStep(buf: seq<byte>, pos: nat, labels: seq<Label>, next: nat)
    requires labels != [] && labels[0] != []
    requires pos + 1 + |labels[0]| <= |buf| && buf[pos] == |labels[0]| % 256
    requires next > pos + 1 + |labels[0]| && DecodeAt(buf, pos, 0) == Some(Decoded(labels, next))
    ensures IsLabel(labels[0]) && DecodeAt(buf, pos + 1 + |labels[0]|, 0) == Some(Decoded(labels[1..], next))
  {
    assert 0 < buf[pos] < POINTER_TAG;
    assert |labels[0]| == |buf[pos + 1..pos + 1 + buf[pos]]|;
  }

  lemma QueryInPlace(host: seq<byte>, qtype: u16, id: u16)
    ensures var q := QueryBytes(host, qtype, id);
            && |q| == HEADER + |EncodedName(host)| + 4
            && At(q, HEADER, EncodedName(host))
            && U16At(q, 0) == id && U16At(q, 2) == 0x0100 && U16At(q, 4) == 1 && U16At(q, 6) == 0
  {
    hide EncodedName, HeaderBytes;
    var q := QueryBytes(host, qtype, id);
    assert At(q, 0, q);
    AtSplit(q, 0, HeaderBytes(id, 0x0100, 1, 0, 0, 0), EncodedName(host) + (U16Bytes(qtype) + U16Bytes(1)));
    AtSplit(q, HEADER, EncodedName(host), U16Bytes(qtype) + U16Bytes(1));
    HeaderReadsBack(q, id, 0x0100, 1, 0, 0, 0);
  }

  /**
   For every text: the name at offset 12 of the query reads back as the text's labels and
   ends four bytes before the end exactly when each label is shorter than 192 bytes.
   */
  lemma QueryNameReadsBack(host: seq<byte>, qtype: u16, id: u16)
    ensures var q := QueryBytes(host, qtype, id);
            DecodeAt(q, HEADER, 0) == Some(Decoded(LabelsOf(host), |q| - 4))
            <==> forall t | t in LabelsOf(host) :: |t| < POINTER_TAG
  {
    hide QueryBytes, DecodeAt, At;
    var q := QueryBytes(host, qtype, id);
    QueryInPlace(host, qtype, id);
    NonEmptyOf(Split(TrimDots(host)));
    if forall t | t in LabelsOf(host) :: |t| < POINTER_TAG {
      ShortLabelsReadBack(q, HEADER, LabelsOf(host));
    }
    if DecodeAt(q, HEADER, 0) == Some(Decoded(LabelsOf(host), |q| - 4)) {
      LongLabelsDoNot(q, HEADER, LabelsOf(host));
    }
  }

  lemma {:induction false} LabelBytesLength(labels: seq<Label>)
    requires labels != []
    ensures |LabelBytes(labels)| == |Join(labels)| + 1
  {
    if |labels| > 1 {
      LabelBytesLength(labels[1..]);
    } else {
      assert labels[1..] == [];
    }
  }

  lemma StripIsTrim(name: seq<byte>)
    requires IsHostname(name)
    ensures TrimDots(name) == StripDot(name)
  {
    var s := StripDot(name);
    assert Split(s)[|Split(s)| - 1] in Split(s);
    if s[|s| - 1] == DOT {
      FinalDotGivesEmptyPart(s);
    }
    assert TrimDots(s) == s;
  }

  /**
   An accepted name fits the 255 bytes of section 2.3.4 of RFC 1035, its query fits the
   16-bit frame length of section 3.3 of RFC 7858, and the query carries the name itself,
   without its final dot. Parsed as a response, the query is an empty one.
   */
  lemma HostnameQuery(name: seq<byte>, qtype: u16, id: u16, rt: RecordType)
    requires IsHostname(name)
    ensures |EncodedName(name)| == |StripDot(name)| + 2 <= 255
    ensures var q := QueryBytes(name, qtype, id);
            && |q| <= 271 && |q| % 0x1_0000 == |q|
            && DecodeAt(q, HEADER, 0) == Some(Decoded(LabelsOf(name), |q| - 4))
            && Join(LabelsOf(name)) == StripDot(name)
            && Parse(q, rt, id) == Ok([])
  {
    var s, q := StripDot(name), QueryBytes(name, qtype, id);
    StripIsTrim(name);
    JoinSplit(s);
    NonEmptyOf(Split(s));
    assert LabelsOf(name) == Split(s);
    LabelBytesLength(Split(s));
    QueryNameReadsBack(name, qtype, id);
    QueryInPlace(name, qtype, id);
    hide QueryBytes, U16At, DecodeAt, IsHostname;
    assert SkipQuestions(q, HEADER, 1) == SkipQuestions(q, |q|, 0);
  }

  // ---- The code's loops ----

  method EncodeName(host: seq<byte>) returns (out: seq<byte>)
    ensures out == EncodedName(host)
  {
    var parts := Split(TrimDots(host));
    out := [];
    assert parts[0..] == parts;
    for i := 0 to |parts|
      invariant out + LabelBytes(NonEmpty(parts[i..])) == LabelBytes(NonEmpty(parts))
    {
      ghost var left := parts[i..];
      assert left[0] == parts[i] && left[1..] == parts[i + 1..];
      if parts[i] == [] {
        assert NonEmpty(left) == NonEmpty(parts[i + 1..]);
        continue;
      }
      LabelMore(out, parts[i], NonEmpty(parts[i + 1..]));
      out := out + [|parts[i]| % 256];
      out := out + parts[i];
    }
    assert parts[|parts|..] == [];
    assert out + [] == out;
    out := out + [0];
  }

  lemma LabelMore(out: seq<byte>, t: Label, rest: seq<Label>)
    ensures out + LabelBytes([t] + rest) == (out + [|t| % 256] + t) + LabelBytes(rest)
  {
    assert ([t] + rest)[1..] == rest;
    assert out + ([|t| % 256] + t + LabelBytes(rest)) == (out + [|t| % 256] + t) + LabelBytes(rest);
  }

  method BuildQuery(host: seq<byte>, qtype: u16, id: u16) returns (buf: seq<byte>)
    ensures buf == QueryBytes(host, qtype, id)
  {
    hide EncodedName;
    buf := U16Bytes(id) + U16Bytes(0x0100);
    buf := buf + (U16Bytes(1) + U16Bytes(0));
    buf := buf + (U16Bytes(0) + U16Bytes(0));
    var name := EncodeName(host);
    buf := buf + name;
    buf := buf + U16Bytes(qtype);
    buf := buf + U16Bytes(1);
  }
}
