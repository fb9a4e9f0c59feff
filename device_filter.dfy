/** The name filter of the device-selection screen: a device is offered only
    when its name, upper-cased, contains "OBD" or "ELM". A device without a
    name is given a placeholder label first. */
module DeviceFilter {
  import opened JavaText

  /** `BluetoothDevice.getBondState()`: BOND_NONE, BOND_BONDING, BOND_BONDED. */
  datatype BondState = BondNone | Bonding | Bonded

  /** A device as the radio reports it: its address, its name (null when the
      platform does not give one) and its bond state. */
  datatype Device = Device(address: string, name: Option<string>, bond: BondState)

  /** Placeholder names for a device whose name is null, in the bonded pass
      and in a live-scan event respectively. */
  const PairedPlaceholder: string := "Unknown (Paired)"
  const ScanPlaceholder: string := "Unknown"

  /** Appended to the label of a bonded device. */
  const PairedSuffix: string := " (Paired)"

  /** The two markers of a diagnostic interface. */
  const ObdMarker: string := "OBD"
  const ElmMarker: string := "ELM"

  /** The name with a null replaced by the placeholder. */
  function NameOr(name: Option<string>, placeholder: string): string
  {
    if name.Some? then name.value else placeholder
  }

  /** The filter itself: the upper-cased name contains one of the markers. */
  predicate NameMatches(name: string)
  {
    Contains(Upper(name), ObdMarker) || Contains(Upper(name), ElmMarker)
  }

  /** `name` holds `marker` at position `i` when ASCII case is ignored. */
  predicate OccursIgnoringCaseAt(name: string, marker: string, i: int)
  {
    0 <= i && i + |marker| <= |name|
    && forall k :: 0 <= k < |marker| ==> UpperChar(name[i + k]) == marker[k]
  }

  lemma OccursIgnoringCaseIffUpper(name: string, marker: string, i: int)
    ensures OccursIgnoringCaseAt(name, marker, i) <==> OccursAt(Upper(name), marker, i)
  {
    var u := Upper(name);
    if 0 <= i && i + |marker| <= |name| {
      var w := u[i..i + |marker|];
      assert forall k :: 0 <= k < |marker| ==> w[k] == UpperChar(name[i + k]);
      if OccursIgnoringCaseAt(name, marker, i) {
        assert w == marker;
      }
    }
  }

  /** The filter accepts a name exactly when "OBD" or "ELM" occurs in it in
      any mix of ASCII upper and lower case. */
  lemma NameMatchesIgnoringCase(name: string)
    ensures NameMatches(name) <==>
      exists i :: 0 <= i <= |name| && (OccursIgnoringCaseAt(name, ObdMarker, i) || OccursIgnoringCaseAt(name, ElmMarker, i))
  {
    var u := Upper(name);
    if NameMatches(name) {
      if Contains(u, ObdMarker) {
        var i :| 0 <= i <= |u| - |ObdMarker| && OccursAt(u, ObdMarker, i);
        OccursIgnoringCaseIffUpper(name, ObdMarker, i);
      } else {
        var i :| 0 <= i <= |u| - |ElmMarker| && OccursAt(u, ElmMarker, i);
        OccursIgnoringCaseIffUpper(name, ElmMarker, i);
      }
    }
    if exists i :: 0 <= i <= |name| && (OccursIgnoringCaseAt(name, ObdMarker, i) || OccursIgnoringCaseAt(name, ElmMarker, i)) {
      var i :| 0 <= i <= |name| && (OccursIgnoringCaseAt(name, ObdMarker, i) || OccursIgnoringCaseAt(name, ElmMarker, i));
      OccursIgnoringCaseIffUpper(name, ObdMarker, i);
      OccursIgnoringCaseIffUpper(name, ElmMarker, i);
    }
  }

  /** Two names that differ only in ASCII case are accepted or rejected
      together. */
  lemma NameMatchesCaseInsensitive(a: string, b: string)
    requires |a| == |b|
    requires forall i :: 0 <= i < |a| ==> UpperChar(a[i]) == UpperChar(b[i])
    ensures NameMatches(a) == NameMatches(b)
  {
    UpperIgnoresCase(a, b);
  }

  /** A letter of the upper-cased name that one of the markers needs:
      'B' for "OBD", 'L' for "ELM". */
  predicate IsMarkerLetter(c: char)
    ensures IsMarkerLetter(c) <==> UpperChar(c) == 'B' || UpperChar(c) == 'L'
  {
    c == 'B' || c == 'b' || c == 'L' || c == 'l'
  }

  /** No character of `s` from index `i` on is a marker letter, checked one
      character at a time. */
  predicate LacksMarkerLettersFrom(s: string, i: nat)
    decreases |s| - i
  {
    i >= |s| || (!IsMarkerLetter(s[i]) && LacksMarkerLettersFrom(s, i + 1))
  }

  lemma {:induction false} LacksMarkerLettersAt(s: string, i: nat, k: int)
    requires LacksMarkerLettersFrom(s, i)
    requires i <= k < |s|
    ensures !IsMarkerLetter(s[k])
    decreases k - i
  {
    if i < k {
      LacksMarkerLettersAt(s, i + 1, k);
    }
  }

  /** A name without the letters B and L, in either case, never passes the
      filter: each marker needs one of them. */
  lemma NoMarkerLetterNoMatch(name: string)
    requires LacksMarkerLettersFrom(name, 0)
    ensures !NameMatches(name)
  {
    var u := Upper(name);
    forall c | c in u ensures c != 'B' && c != 'L' {
      var k :| 0 <= k < |u| && u[k] == c;
      LacksMarkerLettersAt(name, 0, k);
    }
    if Contains(u, ObdMarker) {
      ContainedCharsOccur(u, ObdMarker, 1);
    }
    if Contains(u, ElmMarker) {
      ContainedCharsOccur(u, ElmMarker, 1);
    }
  }

  lemma PairedPlaceholderLacksMarkerLetters()
    ensures LacksMarkerLettersFrom(PairedPlaceholder, 0)
  {
    assert LacksMarkerLettersFrom(PairedPlaceholder, 8);
  }

  /** Neither placeholder passes the filter, so a device whose name is null is
      never listed. */
  lemma PlaceholdersNeverMatch()
    ensures !NameMatches(PairedPlaceholder)
    ensures !NameMatches(ScanPlaceholder)
  {
    PairedPlaceholderLacksMarkerLetters();
    NoMarkerLetterNoMatch(PairedPlaceholder);
    NoMarkerLetterNoMatch(ScanPlaceholder);
  }

  /** The filter after placeholder substitution, as applied in the bonded
      pass and in a live-scan event: it accepts a device only when the device
      has a name, and then exactly when that name matches. */
  lemma NamelessNeverListed(name: Option<string>, placeholder: string)
    requires placeholder == PairedPlaceholder || placeholder == ScanPlaceholder
    ensures NameMatches(NameOr(name, placeholder)) <==> name.Some? && NameMatches(name.value)
  {
    PlaceholdersNeverMatch();
  }
}
