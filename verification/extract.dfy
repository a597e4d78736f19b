/** Reading the compute-cycle count out of the simulator's standard output
    (graph_simulations.py:101-102, graph_simulations_rws.py:114-115,
    graph_simulations1_rws.py:120-121):

        if "COMPUTE CYCLES =" in output:
            compute_cycles = output.split("COMPUTE CYCLES =")[1].strip().split()[0]

    The text between the first marker and the next one (or the end) is
    stripped and its first word taken; a blank segment makes `split()[0]`
    raise IndexError. */
module Extract {
  import opened Text

  const Marker := "COMPUTE CYCLES ="

  /** Outcome of the extraction expression. */
  datatype Extraction =
    | NoMarker        // the `if` is not taken: compute_cycles stays None
    | Blank           // IndexError: nothing but whitespace after the marker
    | Token(t: string)

  /** `output.split(Marker)[1]` when the marker occurs: the text after its first
      occurrence up to its second occurrence, or to the end. */
  function Segment(s: string): (r: Option<string>)
    ensures r.None? <==> !Occurs(s, Marker)
    ensures r.Some? ==> !Occurs(r.value, Marker)
    ensures r.Some? ==> exists i :: FirstAt(s, i) && SegmentAt(s, i, r.value)
  {
    match IndexOf(s, Marker)
    case None => None
    case Some(i) =>
      assert FirstAt(s, i);
      var rest := s[i + |Marker|..];
      match IndexOf(rest, Marker)
      case None =>
        SegmentToEnd(s, i);
        Some(rest)
      case Some(j) =>
        SegmentToNext(s, i, j);
        Some(rest[..j])
  }

  /** With no second marker the segment is everything after the first. */
  lemma SegmentToEnd(s: string, i: nat)
    requires i + |Marker| <= |s| && IndexOf(s[i + |Marker|..], Marker).None?
    ensures SegmentAt(s, i, s[i + |Marker|..])
  {
  }

  /** With a second marker at `j` past the first, the segment stops there. */
  lemma SegmentToNext(s: string, i: nat, j: nat)
    requires i + |Marker| <= |s| && IndexOf(s[i + |Marker|..], Marker) == Some(j)
    ensures SegmentAt(s, i, s[i + |Marker|..][..j])
    ensures !Occurs(s[i + |Marker|..][..j], Marker)
  {
    var start := i + |Marker|;
    var rest := s[start..];
    assert At(rest, Marker, j);
    NoEarlierOccurrence(rest, j);
    SliceOfSuffix(s, start, j);
    SliceOfSuffixRange(s, start, j, j + |Marker|);
    assert At(s, Marker, start + j);
  }

  /** The marker's first occurrence is at `i`. */
  predicate FirstAt(s: string, i: nat) {
    At(s, Marker, i) && forall j :: 0 <= j < i ==> !At(s, Marker, j)
  }

  /** `seg` starts right after the marker at `i` and runs to the next marker or the end. */
  predicate SegmentAt(s: string, i: nat, seg: string) {
    var start := i + |Marker|;
    start + |seg| <= |s| && s[start..start + |seg|] == seg
    && (start + |seg| == |s| || At(s, Marker, start + |seg|))
  }

  /** A prefix that stops before the first occurrence contains none. */
  lemma NoEarlierOccurrence(s: string, j: nat)
    requires j <= |s| && forall k :: 0 <= k < j ==> !At(s, Marker, k)
    ensures !Occurs(s[..j], Marker)
  {
    forall k | 0 <= k <= j
      ensures !At(s[..j], Marker, k)
    {
      if k + |Marker| <= j {
        assert s[..j][k..k + |Marker|] == s[k..k + |Marker|];
        assert !At(s, Marker, k);
      } else {
        assert |s[..j]| == j;
      }
    }
  }

  function Extract(s: string): (r: Extraction)
    ensures r.NoMarker? <==> !Occurs(s, Marker)
    ensures r.Blank? <==> Segment(s).Some? && AllSpace(Segment(s).value)
    ensures r.Token? ==> |r.t| > 0 && NoSpace(r.t) && IsFirstWordOf(r.t, Segment(s).value)
  {
    match Segment(s)
    case None => NoMarker
    case Some(seg) =>
      FirstWordOfStrip(seg);
      match FirstWord(Strip(seg))
      case None => Blank
      case Some(t) =>
        FirstWordFramed(seg);
        Token(t)
  }

  /** The same token as an integer, as the two `_rws` scripts store it; None
      where `int()` raises ValueError. */
  function ExtractCycles(s: string): (r: Option<nat>)
    ensures r.Some? ==> Extract(s).Token? && ParseNat(Extract(s).t) == r
    ensures r.None? <==> !Extract(s).Token? || !AllDigits(Extract(s).t)
  {
    match Extract(s)
    case Token(t) => ParseNat(t)
    case _ => None
  }

  /** No marker starts inside `prefix`, even one that runs on into a marker
      written after it: the marker appended to `prefix` is its first one. */
  predicate MarkerFirstAfter(prefix: string) {
    forall j :: 0 <= j < |prefix| ==> !At(prefix + Marker, Marker, j)
  }

  /** A report whose text before the marker starts no marker of its own,
      followed by the marker, a space, the count and text that starts with
      whitespace and holds no further marker, yields the count. */
  lemma ReportRoundTrip(prefix: string, cycles: nat, suffix: string)
    requires MarkerFirstAfter(prefix)
    requires |suffix| == 0 || IsSpace(suffix[0])
    requires !Occurs(suffix, Marker)
    ensures Extract(prefix + Marker + " " + NatToString(cycles) + suffix) == Token(NatToString(cycles))
    ensures ExtractCycles(prefix + Marker + " " + NatToString(cycles) + suffix) == Some(cycles)
  {
    var digits := NatToString(cycles);
    ReportSegment(prefix, digits, suffix);
    FirstWordOfDigits(digits, suffix);
    ParseNatToString(cycles);
  }

  /** The segment of such a report is everything after the marker. */
  lemma ReportSegment(prefix: string, digits: string, suffix: string)
    requires MarkerFirstAfter(prefix) && AllDigits(digits) && !Occurs(suffix, Marker)
    ensures Segment(prefix + Marker + " " + digits + suffix) == Some(" " + digits + suffix)
  {
    var seg := " " + digits + suffix;
    var s := prefix + Marker + " " + digits + suffix;
    assert s == prefix + Marker + seg;
    FirstMarkerAfter(prefix, seg);
    SegmentHasNone(digits, suffix);
    assert s[|prefix| + |Marker|..] == seg;
  }

  /** The marker right after such a prefix is the first one, whatever follows. */
  lemma FirstMarkerAfter(prefix: string, rest: string)
    requires MarkerFirstAfter(prefix)
    ensures IndexOf(prefix + Marker + rest, Marker) == Some(|prefix|)
  {
    var head := prefix + Marker;
    var s := head + rest;
    assert At(s, Marker, |prefix|) by {
      assert s[|prefix|..|prefix| + |Marker|] == head[|prefix|..] == Marker;
    }
    forall j | 0 <= j < |prefix|
      ensures !At(s, Marker, j)
    {
      assert s[j..j + |Marker|] == head[j..j + |Marker|];
      assert !At(head, Marker, j);
    }
  }

  /** A prefix without an upper-case C starts no marker. */
  lemma MarkerFirstAfterNoC(prefix: string)
    requires 'C' !in prefix
    ensures MarkerFirstAfter(prefix)
  {
    forall j | 0 <= j < |prefix|
      ensures !At(prefix + Marker, Marker, j)
    {
      var head := prefix + Marker;
      assert head[j] == prefix[j];
      if j + |Marker| <= |head| {
        assert head[j..j + |Marker|][0] == head[j];
      }
    }
  }

  /** A segment made of a space, digits and marker-free text holds no marker. */
  lemma SegmentHasNone(digits: string, suffix: string)
    requires AllDigits(digits) && !Occurs(suffix, Marker)
    ensures IndexOf(" " + digits + suffix, Marker).None?
  {
    var seg := " " + digits + suffix;
    var n := 1 + |digits|;
    forall k | 0 <= k <= |seg|
      ensures !At(seg, Marker, k)
    {
      if k < n {
        if k > 0 {
          assert seg[k] == digits[k - 1];
        }
        assert seg[k] == ' ' || IsDigit(seg[k]);
        assert Marker[0] == 'C';
        if k + |Marker| <= |seg| {
          assert seg[k..k + |Marker|][0] == seg[k];
        }
      } else if k + |Marker| <= |seg| {
        assert seg[k..k + |Marker|] == suffix[k - n..k - n + |Marker|];
        assert !At(suffix, Marker, k - n);
      }
    }
  }

  /** The first word of a space, the digits and text starting with whitespace
      is the digits. */
  lemma FirstWordOfDigits(digits: string, suffix: string)
    requires |digits| > 0 && AllDigits(digits)
    requires |suffix| == 0 || IsSpace(suffix[0])
    ensures FirstWord(Strip(" " + digits + suffix)) == Some(digits)
  {
    var rest := digits + suffix;
    assert " " + digits + suffix == [' '] + rest;
    TrimLeftSpaceThen(rest);
    TakeWordOfDigits(digits, suffix);
    FirstWordOfStrip([' '] + rest);
  }

  lemma TrimLeftSpaceThen(rest: string)
    requires |rest| > 0 && IsDigit(rest[0])
    ensures TrimLeft([' '] + rest) == rest
  {
    assert ([' '] + rest)[1..] == rest;
    TrimLeftOfNonSpace(rest);
  }

  lemma {:induction false} TakeWordOfDigits(digits: string, suffix: string)
    requires AllDigits(digits)
    requires |suffix| == 0 || IsSpace(suffix[0])
    ensures TakeWord(digits + suffix) == digits
  {
    if |digits| > 0 {
      assert (digits + suffix)[1..] == digits[1..] + suffix;
      TakeWordOfDigits(digits[1..], suffix);
      assert [digits[0]] + digits[1..] == digits;
    } else {
      assert digits + suffix == suffix;
    }
  }

  /** The example report line from the simulator. */
  lemma ExampleReport()
    ensures ExtractCycles("Total: COMPUTE CYCLES = 4821 cycles total") == Some(4821)
  {
    ExampleDigits();
    ExampleText();
    NoMarkerWithoutC(" cycles total");
    MarkerFirstAfterNoC("Total: ");
    ReportRoundTrip("Total: ", 4821, " cycles total");
  }

  lemma ExampleText()
    ensures "Total: COMPUTE CYCLES = 4821 cycles total" == "Total: " + Marker + " " + "4821" + " cycles total"
  {
  }

  /** A report under the simulator's banner: the C of "SCALE" starts no marker. */
  lemma ExampleBannerReport()
    ensures ExtractCycles("SCALE SIM\n" + Marker + " 4821\n") == Some(4821)
  {
    ExampleDigits();
    BannerPrefix();
    NoMarkerWithoutC("\n");
    BannerText();
    ReportRoundTrip("SCALE SIM\n", 4821, "\n");
  }

  lemma BannerText()
    ensures "SCALE SIM\n" + Marker + " 4821\n" == "SCALE SIM\n" + Marker + " " + "4821" + "\n"
  {
  }

  lemma BannerPrefix()
    ensures MarkerFirstAfter("SCALE SIM\n")
  {
    var prefix := "SCALE SIM\n";
    var head := prefix + Marker;
    forall j | 0 <= j < |prefix|
      ensures !At(head, Marker, j)
    {
      assert head[j] == prefix[j];
      assert head[j + 1] == (if j + 1 < |prefix| then prefix[j + 1] else Marker[0]);
      assert head[j..j + |Marker|][0] == head[j];
      assert head[j..j + |Marker|][1] == head[j + 1];
    }
  }

  lemma ExampleDigits()
    ensures NatToString(4821) == "4821"
  {
    assert NatToString(4) == "4";
    assert NatToString(48) == "48";
    assert NatToString(482) == "482";
  }

  /** Text without an upper-case C holds no marker. */
  lemma NoMarkerWithoutC(s: string)
    requires 'C' !in s
    ensures !Occurs(s, Marker)
  {
    forall k | 0 <= k <= |s|
      ensures !At(s, Marker, k)
    {
      if k + |Marker| <= |s| {
        assert s[k..k + |Marker|][0] == s[k];
      }
    }
  }
}
