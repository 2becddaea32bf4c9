/**
 Which texts dns/src/validate.rs accepts as host names, said about their positions instead of
 their labels.
 */
module HostnameText {
  import opened Bytes
  import opened DnsName
  import opened Hostname

  predicate IsLetterOrDigit(b: byte) {
    48 <= b <= 57 || 65 <= b <= 90 || 97 <= b <= 122
  }

  predicate IsDotOrHyphen(b: byte) {
    b == 46 || b == 45
  }

  /** Letters, digits, hyphens and dots. */
  ghost predicate GoodCharacters(s: seq<byte>) {
    forall i | 0 <= i < |s| :: IsLetterOrDigit(s[i]) || IsDotOrHyphen(s[i])
  }

  /** Begins and ends with a letter or a digit. */
  predicate GoodEnds(s: seq<byte>) {
    s != [] && !IsDotOrHyphen(s[0]) && !IsDotOrHyphen(s[|s| - 1])
  }

  /** No dot is next to another dot or to a hyphen. */
  ghost predicate GoodNeighbours(s: seq<byte>) {
    forall i, j | 0 <= i && j == i + 1 && j < |s| :: !(s[i] == 46 && IsDotOrHyphen(s[j])) && !(s[i] == 45 && s[j] == 46)
  }

  ghost predicate HasDot(s: seq<byte>, i: nat, j: nat) {
    exists k | i <= k < j && k < |s| :: s[k] == 46
  }

  /** A dot in every 64 characters in a row. */
  ghost predicate GoodLengths(s: seq<byte>) {
    forall i: nat, j: nat | j == i + 64 && j <= |s| :: HasDot(s, i, j)
  }

  ghost predicate GoodText(s: seq<byte>) {
    GoodCharacters(s) && GoodEnds(s) && GoodNeighbours(s) && GoodLengths(s)
  }

  /** A character behind the last dot that is not a digit. */
  ghost predicate EndsInAName(s: seq<byte>) {
    exists i: nat :: IsLastName(s, i)
  }

  ghost predicate IsLastName(s: seq<byte>, i: nat) {
    i < |s| && !(48 <= s[i] <= 57) && !HasDot(s, i, |s|)
  }

  /** The text without one final dot. */
  function Undotted(s: seq<byte>): seq<byte> {
    if s != [] && s[|s| - 1] == 46 then s[..|s| - 1] else s
  }

  // ---- One label ----

  lemma OneLabelIff(s: seq<byte>)
    requires forall i | 0 <= i < |s| :: s[i] != 46
    ensures ValidateLabel(s) <==> GoodText(s)
  {
    if |s| >= 64 {
      assert !HasDot(s, 0, 64);
    }
    if ValidateLabel(s) {
      forall i | 0 <= i < |s| ensures IsLetterOrDigit(s[i]) || IsDotOrHyphen(s[i]) {
        assert s[i] in s;
      }
    }
  }

  // ---- A label and what follows its dot ----

  ghost predicate Cuts(s: seq<byte>, k: nat) {
    k < |s| && s[k] == 46 && forall i | 0 <= i < k :: s[i] != 46
  }

  lemma CharactersInParts(s: seq<byte>, k: nat)
    requires Cuts(s, k)
    ensures GoodCharacters(s) <==> GoodCharacters(s[..k]) && GoodCharacters(s[k + 1..])
  {
    var (a, r) := (s[..k], s[k + 1..]);
    if GoodCharacters(a) && GoodCharacters(r) {
      forall i | 0 <= i < |s| ensures IsLetterOrDigit(s[i]) || IsDotOrHyphen(s[i]) {
        assert i < k ==> s[i] == a[i];
        assert i > k ==> s[i] == r[i - (k + 1)];
      }
    }
  }

  /** Ends and neighbours together: the end of the label and the beginning of the rest are next to the dot. */
  lemma BordersInParts(s: seq<byte>, k: nat)
    requires Cuts(s, k)
    ensures GoodEnds(s) && GoodNeighbours(s)
            <==> GoodEnds(s[..k]) && GoodNeighbours(s[..k]) && GoodEnds(s[k + 1..]) && GoodNeighbours(s[k + 1..])
  {
    if GoodEnds(s) && GoodNeighbours(s) {
      BordersOfParts(s, k);
    }
    BordersOfWhole(s, k);
  }

  lemma BordersOfParts(s: seq<byte>, k: nat)
    requires Cuts(s, k) && GoodEnds(s) && GoodNeighbours(s)
    ensures GoodEnds(s[..k]) && GoodNeighbours(s[..k]) && GoodEnds(s[k + 1..]) && GoodNeighbours(s[k + 1..])
  {
    var r := s[k + 1..];
    assert k > 0 && k + 1 < |s|;
    var (before, after) := (k - 1, k + 1);
    assert s[before] != 45;
    assert r[0] == s[after] && r[|r| - 1] == s[|s| - 1];
    forall i, j | 0 <= i && j == i + 1 && j < |r| ensures !(r[i] == 46 && IsDotOrHyphen(r[j])) && !(r[i] == 45 && r[j] == 46) {
      var (m, n) := (k + 1 + i, k + 1 + j);
      assert s[m] == r[i] && s[n] == r[j];
    }
  }

  lemma BordersOfWhole(s: seq<byte>, k: nat)
    requires Cuts(s, k)
    ensures GoodEnds(s[..k]) && GoodNeighbours(s[..k]) && GoodEnds(s[k + 1..]) && GoodNeighbours(s[k + 1..])
            ==> GoodEnds(s) && GoodNeighbours(s)
  {
    var (a, r) := (s[..k], s[k + 1..]);
    if GoodEnds(a) && GoodNeighbours(a) && GoodEnds(r) && GoodNeighbours(r) {
      assert s[0] == a[0] && s[|s| - 1] == r[|r| - 1];
      forall i, j | 0 <= i && j == i + 1 && j < |s| ensures !(s[i] == 46 && IsDotOrHyphen(s[j])) && !(s[i] == 45 && s[j] == 46) {
        if j < k {
          assert a[i] == s[i] && a[j] == s[j];
        } else if j == k {
          assert a[|a| - 1] == s[i];
        } else if i == k {
          assert r[0] == s[j];
        } else {
          var (m, n) := (i - (k + 1), j - (k + 1));
          assert r[m] == s[i] && r[n] == s[j];
        }
      }
    }
  }

  lemma DotMoves(s: seq<byte>, k: nat, i: nat, j: nat)
    requires k < |s|
    ensures HasDot(s[k + 1..], i, j) <==> HasDot(s, k + 1 + i, k + 1 + j)
  {
    var r := s[k + 1..];
    if m :| i <= m < j && m < |r| && r[m] == 46 {
      assert s[k + 1 + m] == 46;
    }
    if m :| k + 1 + i <= m < k + 1 + j && m < |s| && s[m] == 46 {
      assert r[m - (k + 1)] == 46;
    }
  }

  lemma LengthsInParts(s: seq<byte>, k: nat)
    requires Cuts(s, k)
    ensures GoodLengths(s) <==> k <= 63 && GoodLengths(s[k + 1..])
  {
    var r := s[k + 1..];
    if k > 63 {
      assert !HasDot(s, 0, 64);
    }
    if GoodLengths(s) {
      forall i: nat, j: nat | j == i + 64 && j <= |r| ensures HasDot(r, i, j) {
        DotMoves(s, k, i, j);
        var (m, n) := (k + 1 + i, k + 1 + j);
        assert HasDot(s, m, n);
      }
    }
    if k <= 63 && GoodLengths(r) {
      forall i: nat, j: nat | j == i + 64 && j <= |s| ensures HasDot(s, i, j) {
        if i > k {
          var (m, n) := (i - (k + 1), j - (k + 1));
          DotMoves(s, k, m, n);
          assert HasDot(r, m, n);
        } else {
          assert s[k] == 46;
        }
      }
    }
  }

  lemma TextInParts(s: seq<byte>, k: nat)
    requires Cuts(s, k)
    ensures GoodText(s) <==> ValidateLabel(s[..k]) && GoodText(s[k + 1..])
  {
    hide ValidateLabel, GoodCharacters, GoodEnds, GoodNeighbours;
    OneLabelIff(s[..k]);
    CharactersInParts(s, k);
    BordersInParts(s, k);
    LengthsInParts(s, k);
    ShortLabelIff(s, k);
  }

  lemma ShortLabelIff(s: seq<byte>, k: nat)
    requires Cuts(s, k)
    ensures GoodLengths(s[..k]) <==> k <= 63
  {
    if k > 63 {
      assert !HasDot(s[..k], 0, 64);
    }
  }

  // ---- All labels ----

  lemma {:induction false} LabelsIff(s: seq<byte>)
    ensures (forall t | t in Split(s) :: ValidateLabel(t)) <==> GoodText(s)
    decreases |s|
  {
    hide ValidateLabel, GoodText;
    var k := FirstDot(s);
    if k == |s| {
      OneLabelIff(s);
      assert s in Split(s);
    } else {
      var rest := Split(s[k + 1..]);
      LabelsIff(s[k + 1..]);
      TextInParts(s, k);
      assert Split(s) == [s[..k]] + rest;
      assert s[..k] in Split(s) && forall t | t in rest :: t in Split(s);
    }
  }

  lemma {:induction false} LastLabelIff(s: seq<byte>)
    ensures !AllDigits(Split(s)[|Split(s)| - 1]) <==> EndsInAName(s)
    decreases |s|
  {
    hide AllDigits, EndsInAName;
    var k := FirstDot(s);
    if k == |s| {
      OneLastLabel(s);
    } else {
      LastLabelIff(s[k + 1..]);
      NameMoves(s, k);
    }
  }

  lemma OneLastLabel(s: seq<byte>)
    requires forall i | 0 <= i < |s| :: s[i] != 46
    ensures !AllDigits(s) <==> EndsInAName(s)
  {
    if !AllDigits(s) {
      var b :| b in s && !IsDigit(b);
      var i :| 0 <= i < |s| && s[i] == b;
      assert IsLastName(s, i);
    }
    if i: nat :| IsLastName(s, i) {
      assert s[i] in s && !IsDigit(s[i]);
    }
  }

  lemma NameMoves(s: seq<byte>, k: nat)
    requires Cuts(s, k)
    ensures EndsInAName(s) <==> EndsInAName(s[k + 1..])
  {
    hide IsLastName;
    var r := s[k + 1..];
    if i: nat :| IsLastName(s, i) {
      NotBeforeTheDot(s, k, i);
      OneNameMoves(s, k, i - (k + 1));
    }
    if i: nat :| IsLastName(r, i) {
      OneNameMoves(s, k, i);
    }
  }

  lemma NotBeforeTheDot(s: seq<byte>, k: nat, i: nat)
    requires k < |s| && s[k] == 46 && IsLastName(s, i)
    ensures i > k
  {
  }

  lemma OneNameMoves(s: seq<byte>, k: nat, i: nat)
    requires k < |s|
    ensures IsLastName(s[k + 1..], i) <==> IsLastName(s, k + 1 + i)
  {
    hide HasDot;
    var r := s[k + 1..];
    DotMoves(s, k, i, |r|);
    assert i < |r| ==> r[i] == s[k + 1 + i];
  }

  /**
   For every text: it is accepted exactly when, without one final dot, it has 1 to 253
   characters, all of them letters, digits, hyphens and dots, begins and ends with a letter
   or digit, has no dot next to a dot or hyphen, a dot in every 64 characters in a row, and
   something else than digits behind its last dot.
   */
  lemma HostnameIff(name: seq<byte>)
    ensures IsHostname(name) <==> |Undotted(name)| <= 253 && GoodText(Undotted(name)) && EndsInAName(Undotted(name))
  {
    hide ValidateLabel, AllDigits, GoodCharacters, GoodNeighbours, GoodLengths, EndsInAName;
    var s := Undotted(name);
    assert s == StripDot(name);
    LabelsIff(s);
    LastLabelIff(s);
  }
}
