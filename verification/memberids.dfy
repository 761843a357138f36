/**
 * Member numbers of the form `{INITIALS}-{COUNTER}`: the tenant's initials
 * followed by the next counter value, zero-padded to five digits.
 */
module MemberIds {
  import opened Wrappers
  import opened Text

  /** The initials used when a tenant name yields none. */
  const DefaultInitials: string := "ORG"

  /** The counter's minimum rendered width. */
  const CounterWidth: nat := 5

  function InitialsOf(ws: seq<string>): (r: string)
    requires forall j :: 0 <= j < |ws| ==> ws[j] != []
    ensures |r| == |ws|
    ensures forall j :: 0 <= j < |ws| ==> r[j] == UpperChar(ws[j][0])
  {
    seq(|ws|, (j: int) requires 0 <= j < |ws| => UpperChar(ws[j][0]))
  }

  /**
   * `extractTenantInitials`: the upper-cased first character of every
   * whitespace-separated word, in order; a missing name, or one with no
   * word, gives `ORG`.
   */
  function ExtractTenantInitials(name: Option<string>): (r: string)
    ensures r != []
    ensures name.None? || Words(name.value) == [] ==> r == DefaultInitials
    ensures name.Some? && Words(name.value) != [] ==>
              |r| == |Words(name.value)| && forall j :: 0 <= j < |r| ==> r[j] == UpperChar(Words(name.value)[j][0])
  {
    if name.None? then DefaultInitials
    else
      var ws := Words(name.value);
      if ws == [] then DefaultInitials else InitialsOf(ws)
  }

  /** `String(n).padStart(5, '0')`: at least five characters; for `n >= 0` digits that read back as `n`. */
  function CounterText(n: int): (t: string)
    ensures |t| >= CounterWidth
    ensures n >= 0 ==> (forall i :: 0 <= i < |t| ==> IsDigit(t[i])) && ParseNat(t) == n
  {
    if n >= 0 then
      PaddedNatRoundTrip(n, CounterWidth);
      PadStart(NatToString(n), CounterWidth, '0')
    else PadStart(IntToString(n), CounterWidth, '0')
  }

  /**
   * `generateMemberId`: the initials, a dash and `String(counter + 1)` padded
   * to five digits, a missing counter counting as 0. Padding never cuts a
   * longer number short.
   */
  function GenerateMemberId(name: Option<string>, counter: Option<int>): (id: string)
    ensures var ini := ExtractTenantInitials(name);
            var c := if counter.Some? then counter.value else 0;
            |id| >= |ini| + 1 + CounterWidth
            && id[..|ini|] == ini && id[|ini|] == '-' && id[|ini| + 1..] == CounterText(c + 1)
    ensures var ini := ExtractTenantInitials(name);
            var c := if counter.Some? then counter.value else 0;
            c >= 0 ==> (forall i :: |ini| < i < |id| ==> IsDigit(id[i])) && ParseNat(id[|ini| + 1..]) == c + 1
  {
    MemberNumber(ExtractTenantInitials(name), if counter.Some? then counter.value + 1 else 1)
  }

  /** Initials, a dash and the counter text: the counter reads back from after the dash. */
  function MemberNumber(ini: string, n: int): (id: string)
    ensures |id| >= |ini| + 1 + CounterWidth
    ensures id[..|ini|] == ini && id[|ini|] == '-' && id[|ini| + 1..] == CounterText(n)
    ensures n >= 0 ==> (forall i :: |ini| < i < |id| ==> IsDigit(id[i])) && ParseNat(id[|ini| + 1..]) == n
  {
    IdShape(ini, n);
    if n >= 0 then
      IdDigits(ini, n);
      ini + "-" + CounterText(n)
    else ini + "-" + CounterText(n)
  }

  /** Initials, a dash, then the counter text. */
  lemma IdShape(ini: string, n: int)
    ensures var id := ini + "-" + CounterText(n);
            |id| >= |ini| + 1 + CounterWidth && id[..|ini|] == ini && id[|ini|] == '-' && id[|ini| + 1..] == CounterText(n)
  {
    var id := (ini + "-") + CounterText(n);
    assert id[..|ini|] == ini;
    assert id[|ini| + 1..] == CounterText(n);
  }

  /** Everything after the dash is a digit, and the digits read back as the counter. */
  lemma IdDigits(ini: string, n: int)
    requires n >= 0
    ensures var id := ini + "-" + CounterText(n);
            (forall i :: |ini| < i < |id| ==> IsDigit(id[i])) && ParseNat(id[|ini| + 1..]) == n
  {
    var digits := CounterText(n);
    var id := (ini + "-") + digits;
    assert id[|ini| + 1..] == digits;
    DigitsAfter(ini + "-", digits);
  }

  /** Digits appended to a prefix occupy every position after it. */
  lemma DigitsAfter(prefix: string, digits: string)
    requires forall i :: 0 <= i < |digits| ==> IsDigit(digits[i])
    ensures forall i :: |prefix| <= i < |prefix + digits| ==> IsDigit((prefix + digits)[i])
  {
  }

  /** For one tenant name, different counters never give the same member number. */
  lemma DistinctCountersDistinctIds(name: Option<string>, c1: nat, c2: nat)
    requires c1 != c2
    ensures GenerateMemberId(name, Some(c1)) != GenerateMemberId(name, Some(c2))
  {
    var ini := ExtractTenantInitials(name);
    var a := GenerateMemberId(name, Some(c1));
    var b := GenerateMemberId(name, Some(c2));
    assert ParseNat(a[|ini| + 1..]) != ParseNat(b[|ini| + 1..]);
  }

  /** The documented examples: "Acme Ventures" gives `AV`, and its first member number is `AV-00001`. */
  lemma DocumentedExamples()
    ensures ExtractTenantInitials(Some("Acme Ventures")) == "AV"
    ensures GenerateMemberId(Some("Acme Ventures"), Some(0)) == "AV" + "-00001"
    ensures GenerateMemberId(Some("Acme Ventures"), None) == "AV" + "-00001"
  {
    AcmeInitials();
    FirstId(Some("Acme Ventures"), None);
    FirstId(Some("Acme Ventures"), Some(0));
  }

  lemma AcmeInitials()
    ensures ExtractTenantInitials(Some("Acme Ventures")) == "AV"
  {
    AcmeWords();
    InitialsOfTwo("Acme", "Ventures");
    assert UpperChar('A') == 'A' && UpperChar('V') == 'V';
  }

  lemma InitialsOfTwo(w1: string, w2: string)
    requires w1 != [] && w2 != []
    ensures InitialsOf([w1, w2]) == [UpperChar(w1[0]), UpperChar(w2[0])]
  {
  }

  /** A fresh counter (missing or 0) gives the member number ending in `-00001`. */
  lemma FirstId(name: Option<string>, counter: Option<int>)
    requires counter.None? || counter == Some(0)
    ensures GenerateMemberId(name, counter) == ExtractTenantInitials(name) + "-00001"
  {
    var ini := ExtractTenantInitials(name);
    var id := GenerateMemberId(name, counter);
    assert id[..|ini|] == ini && id[|ini|] == '-' && id[|ini| + 1..] == CounterText(1);
    FirstCounter();
    FirstIdText(id, ini);
  }

  lemma FirstIdText(id: string, ini: string)
    requires |ini| < |id| && id[..|ini|] == ini && id[|ini|] == '-' && id[|ini| + 1..] == "00001"
    ensures id == ini + "-00001"
  {
    DashJoin(id, ini, "00001");
    assert "-" + "00001" == "-00001";
    AppendAssoc(ini, "-", "00001");
  }

  /** A string that starts with `ini`, then a dash, then `rest` is exactly their concatenation. */
  lemma DashJoin(id: string, ini: string, rest: string)
    requires |ini| < |id| && id[..|ini|] == ini && id[|ini|] == '-' && id[|ini| + 1..] == rest
    ensures id == ini + "-" + rest
  {
    assert id == id[..|ini|] + [id[|ini|]] + id[|ini| + 1..];
  }

  lemma AcmeWords()
    ensures Words("Acme Ventures") == ["Acme", "Ventures"]
  {
    var acme, ventures := "Acme", "Ventures";
    assert "Acme Ventures" == acme + ([' '] + ventures);
    LastWord(ventures);
    WordsSkipSpace(' ', ventures);
    WordsCons(acme, [' '] + ventures);
  }

  lemma WordsSkipSpace(c: char, s: string)
    requires IsSpace(c)
    ensures Words([c] + s) == Words(s)
  {
    assert ([c] + s)[1..] == s;
  }

  lemma LastWord(w: string)
    requires w != [] && forall i :: 0 <= i < |w| ==> !IsSpace(w[i])
    ensures Words(w) == [w]
  {
    assert w == w + [];
    WordsCons(w, []);
  }

  /** The first counter value renders as `00001`. */
  lemma FirstCounter()
    ensures CounterText(1) == "00001"
  {
    assert NatToString(1) == "1";
    assert Repeat('0', 4) == "0000";
  }

  /** A word followed by whitespace (or nothing) is split off whole. */
  lemma WordsCons(w: string, s: string)
    requires w != [] && forall i :: 0 <= i < |w| ==> !IsSpace(w[i])
    requires s == [] || IsSpace(s[0])
    ensures Words(w + s) == [w] + Words(s)
  {
    RunLengthWord(w, s);
    assert (w + s)[..|w|] == w;
    assert (w + s)[|w|..] == s;
  }

  lemma {:induction false} RunLengthWord(w: string, s: string)
    requires forall i :: 0 <= i < |w| ==> !IsSpace(w[i])
    requires s == [] || IsSpace(s[0])
    ensures RunLength(w + s) == |w|
    decreases |w|
  {
    if w == [] {
      assert w + s == s;
    } else {
      assert (w + s)[1..] == w[1..] + s;
      RunLengthWord(w[1..], s);
    }
  }

  /** A name of only whitespace falls back to `ORG`. */
  lemma BlankNameGivesDefault(name: string)
    requires AllSpace(name)
    ensures ExtractTenantInitials(Some(name)) == DefaultInitials
  {
    BlankHasNoWords(name);
  }

  lemma {:induction false} BlankHasNoWords(s: string)
    requires AllSpace(s)
    ensures Words(s) == []
    decreases |s|
  {
    if s != [] {
      BlankHasNoWords(s[1..]);
    }
  }
}
