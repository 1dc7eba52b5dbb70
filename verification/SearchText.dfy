/** What the command line asks for: the text to look up and the number of the wanted result. */
module SearchText {
  import opened Common
  import opened Station
  import opened Text

  const USIZE_MAX: nat := 0xFFFF_FFFF_FFFF_FFFF

  datatype Filters = Filters(query: Option<string>, province: Option<string>, city: Option<string>,
                             station: Option<string>)

  /** The narrowest filter given is what is looked up. */
  function SearchTextFromFilters(f: Filters): string {
    if f.station.Some? then f.station.value
    else if f.city.Some? then f.city.value
    else if f.query.Some? then f.query.value
    else f.province.GetOr("")
  }

  predicate IsDigit(c: char) {
    '0' <= c <= '9'
  }

  predicate AllDigits(s: string) {
    forall i | 0 <= i < |s| :: IsDigit(s[i])
  }

  function DecimalValue(s: string): nat
    requires AllDigits(s)
  {
    if s == [] then 0
    else 10 * DecimalValue(s[..|s| - 1]) + (s[|s| - 1] as int - '0' as int)
  }

  /** An unsigned machine number: an optional plus sign, digits, and no overflow. */
  function ParseIndex(s: string): Option<nat> {
    var digits := if s != [] && s[0] == '+' then s[1..] else s;
    if digits == [] || !AllDigits(digits) || DecimalValue(digits) > USIZE_MAX then None
    else Some(DecimalValue(digits))
  }

  function LastIndexOf(s: string, c: char): (r: Option<nat>)
    ensures r.Some? ==> r.value < |s| && s[r.value] == c && c !in s[r.value + 1..]
    ensures r.None? ==> c !in s
  {
    if s == [] then None
    else if s[|s| - 1] == c then Some(|s| - 1)
    else
      var r := LastIndexOf(s[..|s| - 1], c);
      assert r.Some? ==> s[r.value + 1..] == s[..|s| - 1][r.value + 1..] + [s[|s| - 1]];
      assert s == s[..|s| - 1] + [s[|s| - 1]];
      r
  }

  /** "text.n" asks for the n-th result for "text"; anything else is plain text. */
  function SplitResultSelector(value: string): (string, Option<nat>) {
    var dot := LastIndexOf(value, '.');
    if dot.None? then (value, None)
    else
      var index := ParseIndex(value[dot.value + 1..]);
      if index.Some? && index.value > 0 then (value[..dot.value], index) else (value, None)
  }

  function LastNonEmpty(parts: seq<string>): Option<string> {
    if parts == [] then None
    else if parts[|parts| - 1] != [] then Some(parts[|parts| - 1])
    else LastNonEmpty(parts[..|parts| - 1])
  }

  /** The provider is asked for the last non-empty part of a station path. */
  function ProviderQuery(text: string): string {
    LastNonEmpty(Split(text, SEPARATOR)).GetOr(text)
  }

  // ----- Written and read back -----

  function Decimal(n: nat): string {
    if n < 10 then ['0' + n as char] else Decimal(n / 10) + ['0' + (n % 10) as char]
  }

  lemma {:induction false} DecimalReadsBack(n: nat)
    ensures Decimal(n) != [] && AllDigits(Decimal(n)) && DecimalValue(Decimal(n)) == n
  {
    if n >= 10 {
      DecimalReadsBack(n / 10);
      assert Decimal(n)[..|Decimal(n)| - 1] == Decimal(n / 10);
    } else {
      assert Decimal(n)[..|Decimal(n)| - 1] == [];
    }
  }

  lemma {:induction false} LastIndexAfter(before: string, c: char, after: string)
    requires c !in after
    ensures LastIndexOf(before + [c] + after, c) == Some(|before|)
  {
    var s := before + [c] + after;
    if after == [] {
      assert s[|s| - 1] == c;
    } else {
      assert s[..|s| - 1] == before + [c] + after[..|after| - 1];
      assert s[|s| - 1] == after[|after| - 1] && after[|after| - 1] in after;
      LastIndexAfter(before, c, after[..|after| - 1]);
    }
  }

  lemma DecimalIsPlain(n: nat)
    ensures '.' !in Decimal(n) && Decimal(n)[..] != [] && Decimal(n)[0] != '+'
  {
    DecimalReadsBack(n);
    assert IsDigit(Decimal(n)[0]) && !IsDigit('.') && !IsDigit('+');
  }

  lemma IndexReadsBack(n: nat)
    requires n <= USIZE_MAX
    ensures ParseIndex(Decimal(n)) == Some(n)
  {
    DecimalReadsBack(n);
    DecimalIsPlain(n);
  }

  lemma SplitAfterDot(text: string, digits: string, n: nat)
    requires '.' !in digits && ParseIndex(digits) == Some(n) && n > 0
    ensures SplitResultSelector(text + ['.'] + digits) == (text, Some(n))
  {
    var value := text + ['.'] + digits;
    LastIndexAfter(text, '.', digits);
    assert value[|text| + 1..] == digits && value[..|text|] == text;
  }

  /** A selector survives being written behind any text, even text with dots of its own. */
  lemma SelectorReadsBack(text: string, n: nat)
    requires 1 <= n <= USIZE_MAX
    ensures SplitResultSelector(text + "." + Decimal(n)) == (text, Some(n))
  {
    DecimalIsPlain(n);
    IndexReadsBack(n);
    SplitAfterDot(text, Decimal(n), n);
    assert "." == ['.'];
  }

  lemma LastPart(parts: seq<string>)
    requires AreComponents(parts) && parts != []
    ensures ProviderQuery(Join(parts, SEPARATOR)) == parts[|parts| - 1]
  {
    SplitOfComponents(parts);
    assert IsComponent(parts[|parts| - 1]);
  }

  /** For every name with a component, the provider is asked for the innermost one. */
  lemma ProviderIsAskedForTheInnermostPart(name: string)
    requires Components(name) != []
    ensures ProviderQuery(NormalizeStationName(name)) == Components(name)[|Components(name)| - 1]
  {
    LastPart(Components(name));
  }

  /** A number as it may be written: digits, perhaps behind a plus sign. */
  ghost predicate IsNumeral(s: string, n: nat) {
    exists digits :: (s == digits || s == "+" + digits) && digits != [] && AllDigits(digits) && DecimalValue(digits) == n
  }

  lemma ParsesExactlyWhen(s: string, n: nat)
    ensures ParseIndex(s) == Some(n) <==> n <= USIZE_MAX && IsNumeral(s, n)
  {
    if ParseIndex(s) == Some(n) {
      var digits := if s != [] && s[0] == '+' then s[1..] else s;
      assert s == digits || s == "+" + digits;
    }
    if n <= USIZE_MAX && IsNumeral(s, n) {
      var digits :| (s == digits || s == "+" + digits) && digits != [] && AllDigits(digits) && DecimalValue(digits) == n;
      assert IsDigit(digits[0]) && !IsDigit('+');
      assert ("+" + digits)[1..] == digits;
    }
  }

  lemma NumeralHasNoDot(s: string, n: nat)
    requires IsNumeral(s, n)
    ensures '.' !in s
  {
    var digits :| (s == digits || s == "+" + digits) && digits != [] && AllDigits(digits) && DecimalValue(digits) == n;
    assert !IsDigit('.');
  }

  /** The value is the text, a dot and the number. */
  ghost predicate Selects(value: string, text: string, n: nat) {
    exists digits :: value == text + ['.'] + digits && IsNumeral(digits, n)
  }

  lemma SplitIsSelection(value: string)
    ensures var (text, index) := SplitResultSelector(value);
            if index.Some? then 1 <= index.value <= USIZE_MAX && Selects(value, text, index.value) else text == value
  {
    var (text, index) := SplitResultSelector(value);
    if index.Some? {
      var digits := value[LastIndexOf(value, '.').value + 1..];
      ParsesExactlyWhen(digits, index.value);
      assert value == text + ['.'] + digits;
    }
  }

  lemma SelectionIsSplit(value: string, text: string, n: nat)
    requires Selects(value, text, n) && 1 <= n <= USIZE_MAX
    ensures SplitResultSelector(value) == (text, Some(n))
  {
    var digits :| value == text + ['.'] + digits && IsNumeral(digits, n);
    NumeralHasNoDot(digits, n);
    ParsesExactlyWhen(digits, n);
    SplitAfterDot(text, digits, n);
  }

  /** Exactly a positive number behind the last dot is a selector; all other text is left as it is. */
  lemma SelectsExactlyWhen(value: string, text: string, n: nat)
    ensures SplitResultSelector(value) == (text, Some(n)) <==> 1 <= n <= USIZE_MAX && Selects(value, text, n)
    ensures SplitResultSelector(value).1 == None ==> SplitResultSelector(value).0 == value
  {
    SplitIsSelection(value);
    if 1 <= n <= USIZE_MAX && Selects(value, text, n) {
      SelectionIsSplit(value, text, n);
    }
  }
}
