/**
  The resource-file name parser `extract_lat_lon` (estimatorMap.py, lines 68-72).

  The source runs `re.search(r"nsrdb_(-?\d+\.\d+)_(-?\d+\.\d+)_", filename)` and
  converts the two groups with `float`.  `re.search` tries the pattern at every
  index from the left and returns the first index where it matches.  At a fixed
  index the pattern has a single way to match: `\d+` is greedy and is always
  followed by a character that is not a digit, and dropping the optional `-`
  leaves `\d+` facing a `-`.  So the search is modelled as a left-to-right scan
  with a deterministic matcher, and the declarative `OccursAt` says what a match
  is.  The groups are kept as decimal literals; `Value` gives their exact value.
*/
module ResourceFileName {
  import opened Wrappers

  /** A literal matched by `-?\d+\.\d+`: its sign, its integer digits and its fraction digits. */
  datatype Decimal = Decimal(negative: bool, whole: string, frac: string)

  predicate IsDigit(c: char) { '0' <= c <= '9' }

  predicate AllDigits(s: string) { forall k :: 0 <= k < |s| ==> IsDigit(s[k]) }

  /** The literal has at least one digit on each side of the point, and only digits there. */
  predicate WellFormed(d: Decimal) {
    |d.whole| > 0 && |d.frac| > 0 && AllDigits(d.whole) && AllDigits(d.frac)
  }

  /** The text of a literal, as it stands in a file name. */
  function Render(d: Decimal): string {
    (if d.negative then "-" else "") + d.whole + "." + d.frac
  }

  const Prefix: string := "nsrdb_"

  /** The text the regular expression matches when its groups are `lat` and `lon`. */
  function Pattern(lat: Decimal, lon: Decimal): string {
    Prefix + Render(lat) + "_" + Render(lon) + "_"
  }

  /** `lit` stands in `s` starting at index `i`. */
  predicate LiteralAt(s: string, i: nat, lit: string) {
    i + |lit| <= |s| && s[i..i + |lit|] == lit
  }

  /** The regular expression matches `s` at index `i`, with groups `lat` and `lon`. */
  predicate OccursAt(s: string, i: nat, lat: Decimal, lon: Decimal) {
    WellFormed(lat) && WellFormed(lon) && LiteralAt(s, i, Pattern(lat, lon))
  }

  /** No match starts at an index in [from, to). */
  ghost predicate NoOccurrence(s: string, from: nat, to: nat) {
    forall k: nat, lat: Decimal, lon: Decimal :: from <= k < to ==> !OccursAt(s, k, lat, lon)
  }

  // ---------------------------------------------------------------------------
  // The matcher

  /** The end of the longest run of digits starting at `i` (greedy `\d*`). */
  function DigitsEnd(s: string, i: nat): (r: nat)
    requires i <= |s|
    ensures i <= r <= |s|
    decreases |s| - i
  {
    if i < |s| && IsDigit(s[i]) then DigitsEnd(s, i + 1) else i
  }

  /** `DigitsEnd` stops at the first character that is not a digit. */
  lemma {:induction false} DigitsEndSound(s: string, i: nat)
    requires i <= |s|
    decreases |s| - i
    ensures forall k :: i <= k < DigitsEnd(s, i) ==> IsDigit(s[k])
    ensures DigitsEnd(s, i) < |s| ==> !IsDigit(s[DigitsEnd(s, i)])
  {
    if i < |s| && IsDigit(s[i]) {
      DigitsEndSound(s, i + 1);
    }
  }

  /** Matches `-?\d+\.\d+` at `i`; on success gives the literal and the index after it. */
  function DecimalAt(s: string, i: nat): (r: Option<(Decimal, nat)>)
    requires i <= |s|
    ensures r.Some? ==> i < r.value.1 <= |s|
  {
    var j := if i < |s| && s[i] == '-' then i + 1 else i;
    var e := DigitsEnd(s, j);
    if e == j || e == |s| || s[e] != '.' then None
    else
      var f := DigitsEnd(s, e + 1);
      if f == e + 1 then None
      else Some((Decimal(j == i + 1, s[j..e], s[e + 1..f]), f))
  }

  /** What `DecimalAt` reads is a well-formed literal standing at `i`, and no digit follows it. */
  lemma DecimalAtSound(s: string, i: nat) returns (d: Decimal, f: nat)
    requires i <= |s| && DecimalAt(s, i).Some?
    ensures DecimalAt(s, i) == Some((d, f))
    ensures WellFormed(d) && f == i + |Render(d)| && LiteralAt(s, i, Render(d))
    ensures f < |s| ==> !IsDigit(s[f])
  {
    var j := if i < |s| && s[i] == '-' then i + 1 else i;
    var e := DigitsEnd(s, j);
    f := DigitsEnd(s, e + 1);
    d := Decimal(j == i + 1, s[j..e], s[e + 1..f]);
    assert DecimalAt(s, i) == Some((d, f));
    LiteralFromRuns(s, i, j, e, f);
  }

  /** A sign, a run of digits, a point and a run of digits make a well-formed literal. */
  lemma LiteralFromRuns(s: string, i: nat, j: nat, e: nat, f: nat)
    requires i <= j <= i + 1 && j < e && e + 1 < f <= |s| && s[e] == '.'
    requires j == i + 1 <==> i < |s| && s[i] == '-'
    requires e == DigitsEnd(s, j) && f == DigitsEnd(s, e + 1)
    ensures var d := Decimal(j == i + 1, s[j..e], s[e + 1..f]);
      WellFormed(d) && f == i + |Render(d)| && LiteralAt(s, i, Render(d)) &&
      (f < |s| ==> !IsDigit(s[f]))
  {
    DigitsEndSound(s, j);
    DigitsEndSound(s, e + 1);
    RenderSlice(s, i, j, e, f);
  }

  /** The slice `DecimalAt` accepts is the text of the literal it returns. */
  lemma RenderSlice(s: string, i: nat, j: nat, e: nat, f: nat)
    requires i <= j <= i + 1 && j < e < f <= |s| && s[e] == '.'
    requires j == i + 1 ==> s[i] == '-'
    ensures s[i..f] == Render(Decimal(j == i + 1, s[j..e], s[e + 1..f]))
  {
    assert s[i..f] == s[i..j] + s[j..e] + [s[e]] + s[e + 1..f];
  }

  /** Matches the whole pattern at `i`; gives the two groups. */
  function MatchAt(s: string, i: nat): Option<(Decimal, Decimal)>
    requires i <= |s|
  {
    if !LiteralAt(s, i, Prefix) then None
    else
      var first := DecimalAt(s, i + |Prefix|);
      if first.None? || !LiteralAt(s, first.value.1, "_") then None
      else
        var second := DecimalAt(s, first.value.1 + 1);
        if second.None? || !LiteralAt(s, second.value.1, "_") then None
        else Some((first.value.0, second.value.0))
  }

  /** `re.search` from index `i`: the groups of the first index at which the pattern matches. */
  function Search(s: string, i: nat): Option<(Decimal, Decimal)>
    requires i <= |s|
    decreases |s| - i
  {
    match MatchAt(s, i)
    case Some(m) => Some(m)
    case None => if i == |s| then None else Search(s, i + 1)
  }

  // ---------------------------------------------------------------------------
  // Values of the groups

  function DigitValue(c: char): nat requires IsDigit(c) { (c as int - '0' as int) as nat }

  /** The number a string of decimal digits denotes. */
  function DigitsValue(s: string): nat
    requires AllDigits(s)
  {
    if s == [] then 0 else 10 * DigitsValue(s[..|s| - 1]) + DigitValue(s[|s| - 1])
  }

  function Pow10(n: nat): (r: nat) ensures r > 0 { if n == 0 then 1 else 10 * Pow10(n - 1) }

  /** The exact value of a literal; Python's `float` rounds this to the nearest double. */
  function Value(d: Decimal): real
    requires WellFormed(d)
  {
    var magnitude := DigitsValue(d.whole) as real + DigitsValue(d.frac) as real / Pow10(|d.frac|) as real;
    if d.negative then -magnitude else magnitude
  }

  /**
    `extract_lat_lon`: the latitude and longitude a resource-file name encodes, or
    `(None, None)`.  Both components are present or both are absent.
  */
  function ExtractLatLon(filename: string): (r: (Option<real>, Option<real>))
    ensures r.0.Some? <==> r.1.Some?
  {
    match Search(filename, 0)
    case Some((lat, lon)) =>
      SearchSound(filename, 0);
      (Some(Value(lat)), Some(Value(lon)))
    case None => (None, None)
  }

  // ---------------------------------------------------------------------------
  // Lemmas

  lemma LiteralAtConcat(s: string, i: nat, x: string, y: string)
    ensures LiteralAt(s, i, x + y) <==> LiteralAt(s, i, x) && LiteralAt(s, i + |x|, y)
  {
    if LiteralAt(s, i, x) && LiteralAt(s, i + |x|, y) {
      assert s[i..i + |x + y|] == s[i..i + |x|] + s[i + |x|..i + |x| + |y|];
    }
    if LiteralAt(s, i, x + y) {
      assert s[i..i + |x|] == (x + y)[..|x|];
      assert s[i + |x|..i + |x| + |y|] == (x + y)[|x|..];
    }
  }

  /** `OccursAt` split into its pieces, in the order the matcher reads them. */
  lemma OccursAtPieces(s: string, i: nat, lat: Decimal, lon: Decimal)
    ensures LiteralAt(s, i, Pattern(lat, lon)) <==>
      var j := i + |Prefix| + |Render(lat)|;
      var k := j + 1 + |Render(lon)|;
      LiteralAt(s, i, Prefix) && LiteralAt(s, i + |Prefix|, Render(lat)) &&
      LiteralAt(s, j, "_") && LiteralAt(s, j + 1, Render(lon)) && LiteralAt(s, k, "_")
  {
    var a := Prefix + Render(lat);
    var b := a + "_";
    var c := b + Render(lon);
    LiteralAtConcat(s, i, c, "_");
    LiteralAtConcat(s, i, b, Render(lon));
    LiteralAtConcat(s, i, a, "_");
    LiteralAtConcat(s, i, Prefix, Render(lat));
  }

  /** A run of digits followed by a non-digit (or the end) is what `DigitsEnd` reads. */
  lemma DigitsEndAt(s: string, j: nat, w: string)
    requires LiteralAt(s, j, w) && AllDigits(w)
    requires j + |w| < |s| ==> !IsDigit(s[j + |w|])
    ensures DigitsEnd(s, j) == j + |w|
  {
    forall k | j <= k < j + |w| ensures IsDigit(s[k]) {
      assert s[k] == s[j..j + |w|][k - j];
    }
    DigitsEndSound(s, j);
  }

  /** One evaluation of `DecimalAt`, given the ends of its two digit runs. */
  lemma DecimalAtUnfold(s: string, i: nat, j: nat, e: nat, f: nat)
    requires i <= |s|
    requires j == (if i < |s| && s[i] == '-' then i + 1 else i)
    requires j < e && e + 1 < f <= |s| && s[e] == '.'
    requires DigitsEnd(s, j) == e && DigitsEnd(s, e + 1) == f
    ensures DecimalAt(s, i) == Some((Decimal(j == i + 1, s[j..e], s[e + 1..f]), f))
  {
  }

  /** `Render(d)` at `i` split into its sign, its integer digits, its point and its fraction digits. */
  lemma RenderPieces(s: string, i: nat, d: Decimal)
    ensures LiteralAt(s, i, Render(d)) <==>
      var j := i + (if d.negative then 1 else 0);
      var e := j + |d.whole|;
      (d.negative ==> LiteralAt(s, i, "-")) &&
      LiteralAt(s, j, d.whole) && LiteralAt(s, e, ".") && LiteralAt(s, e + 1, d.frac)
  {
    var sign := if d.negative then "-" else "";
    LiteralAtConcat(s, i, sign + d.whole + ".", d.frac);
    LiteralAtConcat(s, i, sign + d.whole, ".");
    LiteralAtConcat(s, i, sign, d.whole);
  }

  /** A character a literal starts at. */
  lemma CharAt(s: string, i: nat, lit: string)
    requires LiteralAt(s, i, lit) && |lit| > 0
    ensures s[i] == lit[0]
  {
    assert s[i..i + |lit|][0] == lit[0];
  }

  /** A well-formed literal followed by a non-digit is exactly what `DecimalAt` reads. */
  lemma DecimalAtComplete(s: string, i: nat, d: Decimal)
    requires WellFormed(d) && LiteralAt(s, i, Render(d))
    requires i + |Render(d)| < |s| ==> !IsDigit(s[i + |Render(d)|])
    ensures DecimalAt(s, i) == Some((d, i + |Render(d)|))
  {
    var j := i + (if d.negative then 1 else 0);
    var e := j + |d.whole|;
    var f := e + 1 + |d.frac|;
    RenderPieces(s, i, d);
    RunsOfLiteral(s, i, d, j, e, f);
    DecimalAtUnfold(s, i, j, e, f);
  }

  /** The sign, the two digit runs and the point of a literal, read back from where they stand. */
  lemma RunsOfLiteral(s: string, i: nat, d: Decimal, j: nat, e: nat, f: nat)
    requires WellFormed(d)
    requires j == i + (if d.negative then 1 else 0) && e == j + |d.whole| && f == e + 1 + |d.frac|
    requires d.negative ==> LiteralAt(s, i, "-")
    requires LiteralAt(s, j, d.whole) && LiteralAt(s, e, ".") && LiteralAt(s, e + 1, d.frac)
    requires f < |s| ==> !IsDigit(s[f])
    ensures i <= |s| && j == (if i < |s| && s[i] == '-' then i + 1 else i)
    ensures s[e] == '.' && f <= |s|
    ensures DigitsEnd(s, j) == e && DigitsEnd(s, e + 1) == f
    ensures Decimal(j == i + 1, s[j..e], s[e + 1..f]) == d
  {
    if d.negative { CharAt(s, i, "-"); } else { CharAt(s, i, d.whole); }
    CharAt(s, e, ".");
    DigitsEndAt(s, j, d.whole);
    DigitsEndAt(s, e + 1, d.frac);
  }

  /** What the matcher accepts at an index is a match. */
  lemma MatchAtSound(s: string, i: nat)
    requires i <= |s|
    ensures MatchAt(s, i).Some? ==> OccursAt(s, i, MatchAt(s, i).value.0, MatchAt(s, i).value.1)
  {
    if MatchAt(s, i).Some? {
      var lat, j, lon, k := MatchAtParts(s, i);
      var _, _ := DecimalAtSound(s, i + |Prefix|);
      var _, _ := DecimalAtSound(s, j + 1);
      OccursFromPieces(s, i, lat, j, lon, k);
    }
  }

  /** What a successful `MatchAt` has read: the prefix, two literals and their separators. */
  lemma MatchAtParts(s: string, i: nat) returns (lat: Decimal, j: nat, lon: Decimal, k: nat)
    requires i <= |s| && MatchAt(s, i).Some?
    ensures LiteralAt(s, i, Prefix) && i + |Prefix| <= |s| && DecimalAt(s, i + |Prefix|) == Some((lat, j))
    ensures LiteralAt(s, j, "_") && j + 1 <= |s| && DecimalAt(s, j + 1) == Some((lon, k))
    ensures LiteralAt(s, k, "_") && MatchAt(s, i) == Some((lat, lon))
  {
    lat, j := DecimalAt(s, i + |Prefix|).value.0, DecimalAt(s, i + |Prefix|).value.1;
    lon, k := DecimalAt(s, j + 1).value.0, DecimalAt(s, j + 1).value.1;
  }

  /** A match is the pieces of the pattern, one after another. */
  lemma PiecesOfOccurrence(s: string, i: nat, lat: Decimal, lon: Decimal) returns (j: nat, k: nat)
    requires OccursAt(s, i, lat, lon)
    ensures WellFormed(lat) && WellFormed(lon)
    ensures LiteralAt(s, i, Prefix) && LiteralAt(s, i + |Prefix|, Render(lat))
    ensures j == i + |Prefix| + |Render(lat)| && LiteralAt(s, j, "_")
    ensures LiteralAt(s, j + 1, Render(lon))
    ensures k == j + 1 + |Render(lon)| && LiteralAt(s, k, "_")
  {
    OccursAtPieces(s, i, lat, lon);
    j := i + |Prefix| + |Render(lat)|;
    k := j + 1 + |Render(lon)|;
  }

  /** The pieces of the pattern, read one after another, make a match. */
  lemma OccursFromPieces(s: string, i: nat, lat: Decimal, j: nat, lon: Decimal, k: nat)
    requires LiteralAt(s, i, Prefix) && WellFormed(lat) && LiteralAt(s, i + |Prefix|, Render(lat))
    requires j == i + |Prefix| + |Render(lat)| && LiteralAt(s, j, "_")
    requires WellFormed(lon) && LiteralAt(s, j + 1, Render(lon))
    requires k == j + 1 + |Render(lon)| && LiteralAt(s, k, "_")
    ensures OccursAt(s, i, lat, lon)
  {
    OccursAtPieces(s, i, lat, lon);
  }

  /** Every match at an index is what the matcher returns there (so the groups are unique). */
  lemma MatchAtComplete(s: string, i: nat, lat: Decimal, lon: Decimal)
    requires i <= |s| && OccursAt(s, i, lat, lon)
    ensures MatchAt(s, i) == Some((lat, lon))
  {
    var j, k := PiecesOfOccurrence(s, i, lat, lon);
    CharAt(s, j, "_");
    CharAt(s, k, "_");
    DecimalAtComplete(s, i + |Prefix|, lat);
    DecimalAtComplete(s, j + 1, lon);
    MatchAtUnfold(s, i, lat, j, lon, k);
  }

  /** One evaluation of `MatchAt`, given what its two calls of `DecimalAt` return. */
  lemma MatchAtUnfold(s: string, i: nat, lat: Decimal, j: nat, lon: Decimal, k: nat)
    requires i <= |s| && LiteralAt(s, i, Prefix)
    requires i + |Prefix| <= |s| && DecimalAt(s, i + |Prefix|) == Some((lat, j))
    requires LiteralAt(s, j, "_") && j + 1 <= |s| && DecimalAt(s, j + 1) == Some((lon, k))
    requires LiteralAt(s, k, "_")
    ensures MatchAt(s, i) == Some((lat, lon))
  {
  }

  /** At a given index the matcher succeeds exactly on a match. */
  lemma MatchAtExact(s: string, i: nat, lat: Decimal, lon: Decimal)
    requires i <= |s|
    ensures MatchAt(s, i) == Some((lat, lon)) <==> OccursAt(s, i, lat, lon)
  {
    MatchAtSound(s, i);
    if OccursAt(s, i, lat, lon) {
      MatchAtComplete(s, i, lat, lon);
    }
  }

  /** What `Search` finds is a match, and no match starts earlier. */
  lemma {:induction false} SearchSound(s: string, i: nat)
    requires i <= |s|
    decreases |s| - i
    ensures Search(s, i).Some? ==>
      exists k: nat :: i <= k <= |s| && OccursAt(s, k, Search(s, i).value.0, Search(s, i).value.1) &&
        NoOccurrence(s, i, k)
  {
    match MatchAt(s, i)
    case Some(m) =>
      MatchAtExact(s, i, m.0, m.1);
      assert OccursAt(s, i, m.0, m.1) && NoOccurrence(s, i, i);
    case None =>
      if i < |s| {
        SearchSound(s, i + 1);
        forall lat: Decimal, lon: Decimal ensures !OccursAt(s, i, lat, lon) {
          MatchAtExact(s, i, lat, lon);
        }
      }
  }

  /** When `Search` finds nothing, the pattern occurs nowhere from `i` on. */
  lemma {:induction false} SearchComplete(s: string, i: nat)
    requires i <= |s|
    decreases |s| - i
    ensures Search(s, i).None? ==> NoOccurrence(s, i, |s| + 1)
  {
    if Search(s, i).None? {
      assert MatchAt(s, i).None?;
      forall lat: Decimal, lon: Decimal ensures !OccursAt(s, i, lat, lon) {
        MatchAtExact(s, i, lat, lon);
      }
      if i < |s| {
        SearchComplete(s, i + 1);
      }
    }
  }

  /**
    `extract_lat_lon` returns a pair exactly when the pattern occurs in the name,
    and then it returns the values of the groups of the leftmost occurrence.
  */
  lemma ExtractLatLonSpec(filename: string)
    ensures ExtractLatLon(filename).0.Some? <==>
      exists k: nat, lat: Decimal, lon: Decimal :: OccursAt(filename, k, lat, lon)
    ensures forall k: nat, lat: Decimal, lon: Decimal ::
      OccursAt(filename, k, lat, lon) && NoOccurrence(filename, 0, k) ==>
        ExtractLatLon(filename) == (Some(Value(lat)), Some(Value(lon)))
  {
    SearchSound(filename, 0);
    SearchComplete(filename, 0);
    forall k: nat, lat: Decimal, lon: Decimal | OccursAt(filename, k, lat, lon) && NoOccurrence(filename, 0, k)
      ensures ExtractLatLon(filename) == (Some(Value(lat)), Some(Value(lon)))
    {
      assert k <= |filename|;
      var m := Search(filename, 0).value;
      var k': nat :| k' <= |filename| && OccursAt(filename, k', m.0, m.1) && NoOccurrence(filename, 0, k');
      assert k' == k;
      MatchAtExact(filename, k, lat, lon);
      MatchAtExact(filename, k, m.0, m.1);
    }
  }

  /**
    A resource-file name that starts with `nsrdb_<lat>_<lon>_` reads back as the
    two coordinates written into it, whatever follows.
  */
  lemma NameRoundTrip(lat: Decimal, lon: Decimal, rest: string)
    requires WellFormed(lat) && WellFormed(lon)
    ensures ExtractLatLon(Pattern(lat, lon) + rest) == (Some(Value(lat)), Some(Value(lon)))
  {
    var name := Pattern(lat, lon) + rest;
    assert name[0..|Pattern(lat, lon)|] == Pattern(lat, lon);
    assert OccursAt(name, 0, lat, lon) && NoOccurrence(name, 0, 0);
    ExtractLatLonSpec(name);
  }

  /** The digits of a literal with n digits denote a number below 10^n. */
  lemma {:induction false} DigitsValueBound(s: string)
    requires AllDigits(s)
    ensures DigitsValue(s) < Pow10(|s|)
  {
    if s != [] {
      DigitsValueBound(s[..|s| - 1]);
    }
  }

  /** A proper fraction of a positive number lies in [0, 1). */
  lemma FractionBelowOne(n: real, p: real)
    requires 0.0 <= n < p
    ensures 0.0 <= n / p < 1.0
  {
    var q := n / p;
    assert q * p == n;
    assert (1.0 - q) * p == p - n;
  }

  /** The value of a literal lies between its integer part and the next integer (in magnitude). */
  lemma ValueBounds(d: Decimal)
    requires WellFormed(d)
    ensures !d.negative ==> DigitsValue(d.whole) as real <= Value(d) < DigitsValue(d.whole) as real + 1.0
    ensures d.negative ==> -(DigitsValue(d.whole) as real) - 1.0 < Value(d) <= -(DigitsValue(d.whole) as real)
  {
    DigitsValueBound(d.frac);
    FractionBelowOne(DigitsValue(d.frac) as real, Pow10(|d.frac|) as real);
  }
}
