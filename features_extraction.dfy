/**
 * Lexical URL features.
 *
 * `extract_features` reduces a URL string to three counts: its length, the
 * number of "special" characters among `. - @ / ? = _`, and the number of
 * digit characters. The result is a dictionary whose key order is the
 * column order the classifiers were trained on.
 *
 * Strings are `seq<char>` of Unicode scalar values, so `|url|` is Python's
 * `len(url)` (a count of code points). The digit test is Python's
 * `str.isdigit`, which consults the Unicode character database; it is a
 * parameter `isDigit` here, and the lemmas that need to know anything about
 * it require `DigitClass(isDigit)`. `ExtractAsciiFeatures` fixes it to the
 * ASCII digits.
 */
module FeaturesExtraction {

  datatype Option<T> = None | Some(value: T)

  /** The feature record, its fields in the dictionary's key order. */
  datatype Features = Features(urlLength: nat, specialCharCount: nat, digitCount: nat)

  /** The seven characters whose occurrences are summed, in source order. */
  const SpecialChars: seq<char> := ['.', '-', '@', '/', '?', '=', '_']

  /** The dictionary's keys, in insertion order. */
  const FeatureNames: seq<string> := ["url_length", "special_char_count", "digit_count"]

  /** One of the seven special characters (see `SpecialCharsAreSpecial`). */
  predicate IsSpecial(c: char) {
    c == '.' || c == '-' || c == '@' || c == '/' || c == '?' || c == '=' || c == '_'
  }

  predicate IsAsciiDigit(c: char) {
    '0' <= c <= '9'
  }

  predicate IsAscii(c: char) {
    c < 128 as char
  }

  predicate AllAscii(s: string) {
    forall i :: 0 <= i < |s| ==> IsAscii(s[i])
  }

  /**
   * What is assumed of the digit test: the ASCII digits are digits, none of
   * the special characters is one, and on ASCII characters it is exactly
   * '0'..'9'. Python's `str.isdigit` satisfies all three (beyond ASCII it
   * also accepts other Unicode digits, such as superscripts).
   */
  predicate DigitClass(isDigit: char -> bool) {
    (forall c :: IsAsciiDigit(c) ==> isDigit(c)) &&
    (forall c :: IsSpecial(c) ==> !isDigit(c)) &&
    (forall c :: IsAscii(c) ==> (isDigit(c) <==> IsAsciiDigit(c)))
  }

  predicate Distinct(cs: seq<char>) {
    forall i, j :: 0 <= i < j < |cs| ==> cs[i] != cs[j]
  }

  /** Membership in `chars`, as a character test. */
  function MemberOf(chars: seq<char>): char -> bool {
    c => c in chars
  }

  // ---------------------------------------------------------------------
  // Counting

  /** The number of positions of `s` whose character passes `p`. */
  function CountWhere(s: string, p: char -> bool): (r: nat)
    ensures r <= |s|
  {
    if s == [] then 0 else (if p(s[0]) then 1 else 0) + CountWhere(s[1..], p)
  }

  /** `s.count(c)` for a one-character substring `c`. */
  function CountChar(s: string, c: char): (r: nat)
    ensures r <= |s|
  {
    if s == [] then 0 else (if s[0] == c then 1 else 0) + CountChar(s[1..], c)
  }

  /** `sum(s.count(c) for c in chars)`: one `count` per listed character. */
  function SumOfCounts(s: string, chars: seq<char>): (r: nat)
    ensures r <= |chars| * |s|
  {
    if chars == [] then 0 else CountChar(s, chars[0]) + SumOfCounts(s, chars[1..])
  }

  // ---------------------------------------------------------------------
  // The extractor

  /**
   * `extract_features(url)` with the digit test `isDigit`. Defined for every
   * string: there is no precondition and no error result. Each count is the
   * number of positions whose character passes the corresponding test; the
   * source's own formula for the special count, one `count` per special
   * character, gives the same number (`SpecialCountIsSumOfCounts`).
   */
  function ExtractFeatures(url: string, isDigit: char -> bool): (f: Features)
    ensures f.urlLength == |url|
    ensures f.specialCharCount <= f.urlLength && f.digitCount <= f.urlLength
    ensures url == [] ==> f == Features(0, 0, 0)
  {
    Features(|url|, CountWhere(url, IsSpecial), CountWhere(url, isDigit))
  }

  /** `extract_features(url)` with the digit test restricted to ASCII '0'..'9'. */
  function ExtractAsciiFeatures(url: string): (f: Features)
    ensures f.urlLength == |url|
    ensures f.specialCharCount + f.digitCount <= f.urlLength
  {
    AsciiDigitClass();
    FeaturesBound(url, IsAsciiDigit);
    ExtractFeatures(url, IsAsciiDigit)
  }

  // ---------------------------------------------------------------------
  // The returned dictionary

  /** The returned dictionary, as its (key, value) items in insertion order. */
  function AsDict(f: Features): (d: seq<(string, nat)>)
    ensures Keys(d) == FeatureNames
  {
    var d := [("url_length", f.urlLength),
              ("special_char_count", f.specialCharCount),
              ("digit_count", f.digitCount)];
    ThreeItems(d);
    d
  }

  function Keys(d: seq<(string, nat)>): (ks: seq<string>)
    ensures |ks| == |d|
  {
    if d == [] then [] else [d[0].0] + Keys(d[1..])
  }

  function Values(d: seq<(string, nat)>): (vs: seq<nat>)
    ensures |vs| == |d|
  {
    if d == [] then [] else [d[0].1] + Values(d[1..])
  }

  /**
   * `d.get(key)`: the value stored under `key`, or `None` when `key` is
   * absent. The source never reads the dictionary by key; this states what
   * the dictionary holds.
   */
  function Lookup(d: seq<(string, nat)>, key: string): (r: Option<nat>)
    ensures r == None <==> key !in Keys(d)
  {
    if d == [] then None
    else if d[0].0 == key then Some(d[0].1)
    else Lookup(d[1..], key)
  }

  /**
   * The classifier's input row (`features.values()` under the columns
   * `features.keys()`): column i holds the value the dictionary stores under
   * the i-th feature name, and there are exactly three columns.
   */
  function FeatureRow(f: Features): (row: seq<nat>)
    ensures |row| == |FeatureNames|
    ensures forall i :: 0 <= i < |row| ==> Lookup(AsDict(f), FeatureNames[i]) == Some(row[i])
  {
    var d := AsDict(f);
    ThreeItems(d);
    DictLookup(f);
    Values(d)
  }

  // ---------------------------------------------------------------------
  // Lemmas

  /** Each key of the dictionary holds the matching field; no other key is present. */
  lemma DictLookup(f: Features)
    ensures Lookup(AsDict(f), "url_length") == Some(f.urlLength)
    ensures Lookup(AsDict(f), "special_char_count") == Some(f.specialCharCount)
    ensures Lookup(AsDict(f), "digit_count") == Some(f.digitCount)
    ensures forall k :: k !in FeatureNames ==> Lookup(AsDict(f), k) == None
  {
    ThreeItems(AsDict(f));
  }

  /** The keys, the values and the lookups of a three-item dictionary, item by item. */
  lemma ThreeItems(d: seq<(string, nat)>)
    requires |d| == 3
    ensures Keys(d) == [d[0].0, d[1].0, d[2].0]
    ensures Values(d) == [d[0].1, d[1].1, d[2].1]
    ensures forall k :: Lookup(d, k) == (
              if k == d[0].0 then Some(d[0].1)
              else if k == d[1].0 then Some(d[1].1)
              else if k == d[2].0 then Some(d[2].1)
              else None)
  {
    var d1: seq<(string, nat)> := d[1..];
    var d2: seq<(string, nat)> := d1[1..];
    var d3: seq<(string, nat)> := d2[1..];
    assert d1 == [d[1], d[2]] && d2 == [d[2]] && d3 == [];
    assert Keys(d2) == [d[2].0] && Values(d2) == [d[2].1];
    assert Keys(d1) == [d[1].0, d[2].0] && Values(d1) == [d[1].1, d[2].1];
    forall k
      ensures Lookup(d, k) ==
        if k == d[0].0 then Some(d[0].1)
        else if k == d[1].0 then Some(d[1].1)
        else if k == d[2].0 then Some(d[2].1)
        else None
    {
      assert Lookup(d3, k) == None;
      assert Lookup(d2, k) == if k == d[2].0 then Some(d[2].1) else None;
      assert Lookup(d1, k) == if k == d[1].0 then Some(d[1].1) else Lookup(d2, k);
    }
  }

  /** `IsSpecial` holds of exactly the listed characters, and none is listed twice. */
  lemma SpecialCharsAreSpecial()
    ensures forall c :: c in SpecialChars <==> IsSpecial(c)
    ensures Distinct(SpecialChars)
  {
  }

  lemma AsciiDigitClass()
    ensures DigitClass(IsAsciiDigit)
  {
  }

  /** The count is zero exactly when no character of `s` passes `p`. */
  lemma {:induction false} CountWhereZero(s: string, p: char -> bool)
    ensures CountWhere(s, p) == 0 <==> forall i :: 0 <= i < |s| ==> !p(s[i])
  {
    if s != [] {
      CountWhereZero(s[1..], p);
      assert forall i :: 1 <= i < |s| ==> s[i] == s[1..][i - 1];
    }
  }

  /** The count is the length exactly when every character of `s` passes `p`. */
  lemma {:induction false} CountWhereFull(s: string, p: char -> bool)
    ensures CountWhere(s, p) == |s| <==> forall i :: 0 <= i < |s| ==> p(s[i])
  {
    if s != [] {
      CountWhereFull(s[1..], p);
      assert forall i :: 1 <= i < |s| ==> s[i] == s[1..][i - 1];
    }
  }

  /** A weaker test never counts more positions. */
  lemma {:induction false} CountWhereMono(s: string, p: char -> bool, q: char -> bool)
    requires forall c :: p(c) ==> q(c)
    ensures CountWhere(s, p) <= CountWhere(s, q)
  {
    if s != [] {
      CountWhereMono(s[1..], p, q);
    }
  }

  /** Two tests no character passes together count at most `|s|` positions between them. */
  lemma {:induction false} CountWhereDisjoint(s: string, p: char -> bool, q: char -> bool)
    requires forall c :: !(p(c) && q(c))
    ensures CountWhere(s, p) + CountWhere(s, q) <= |s|
  {
    if s != [] {
      CountWhereDisjoint(s[1..], p, q);
    }
  }

  lemma {:induction false} CountWhereAppend(s: string, t: string, p: char -> bool)
    ensures CountWhere(s + t, p) == CountWhere(s, p) + CountWhere(t, p)
  {
    if s != [] {
      assert (s + t)[1..] == s[1..] + t;
      CountWhereAppend(s[1..], t, p);
    } else {
      assert s + t == t;
    }
  }

  /** Counting members of `[c] + cs` splits into counting `c` and counting members of `cs`. */
  lemma {:induction false} CountMemberCons(s: string, c: char, cs: seq<char>)
    requires c !in cs
    ensures CountWhere(s, MemberOf([c] + cs)) == CountChar(s, c) + CountWhere(s, MemberOf(cs))
  {
    if s != [] {
      CountMemberCons(s[1..], c, cs);
    }
  }

  /**
   * Summing one `count` per character equals counting the positions whose
   * character is listed, provided no character is listed twice.
   */
  lemma {:induction false} SumOfCountsIsMemberCount(s: string, chars: seq<char>)
    requires Distinct(chars)
    ensures SumOfCounts(s, chars) == CountWhere(s, MemberOf(chars))
  {
    if chars == [] {
      CountWhereZero(s, MemberOf(chars));
    } else {
      assert chars == [chars[0]] + chars[1..];
      SumOfCountsIsMemberCount(s, chars[1..]);
      CountMemberCons(s, chars[0], chars[1..]);
    }
  }

  /**
   * The special count is what the source computes: the sum, over the seven
   * special characters, of the number of occurrences of each.
   */
  lemma SpecialCountIsSumOfCounts(url: string, isDigit: char -> bool)
    ensures ExtractFeatures(url, isDigit).specialCharCount == SumOfCounts(url, SpecialChars)
  {
    SpecialCharsAreSpecial();
    SumOfCountsIsMemberCount(url, SpecialChars);
    CountWhereMono(url, IsSpecial, MemberOf(SpecialChars));
    CountWhereMono(url, MemberOf(SpecialChars), IsSpecial);
  }

  /**
   * No position is both special and a digit, so the special and digit
   * counts together never exceed the length.
   */
  lemma FeaturesBound(url: string, isDigit: char -> bool)
    requires DigitClass(isDigit)
    ensures var f := ExtractFeatures(url, isDigit);
      f.specialCharCount + f.digitCount <= f.urlLength
  {
    CountWhereDisjoint(url, IsSpecial, isDigit);
  }

  /** Field-wise sum of two feature records. */
  function Plus(a: Features, b: Features): Features {
    Features(a.urlLength + b.urlLength,
             a.specialCharCount + b.specialCharCount,
             a.digitCount + b.digitCount)
  }

  /** Every field of the features of `s + t` is the sum of those of `s` and `t`. */
  lemma ExtractFeaturesAppend(s: string, t: string, isDigit: char -> bool)
    ensures ExtractFeatures(s + t, isDigit) == Plus(ExtractFeatures(s, isDigit), ExtractFeatures(t, isDigit))
  {
    CountWhereAppend(s, t, IsSpecial);
    CountWhereAppend(s, t, isDigit);
  }

  /** A URL has no digits exactly when no character passes the digit test. */
  lemma NoDigits(url: string, isDigit: char -> bool)
    ensures ExtractFeatures(url, isDigit).digitCount == 0 <==>
      forall i :: 0 <= i < |url| ==> !isDigit(url[i])
  {
    CountWhereZero(url, isDigit);
  }

  /** A URL has no special characters exactly when none of its characters is special. */
  lemma NoSpecials(url: string, isDigit: char -> bool)
    ensures ExtractFeatures(url, isDigit).specialCharCount == 0 <==>
      forall i :: 0 <= i < |url| ==> !IsSpecial(url[i])
  {
    CountWhereZero(url, IsSpecial);
  }

  /**
   * Restricting the digit test to ASCII can only undercount: every admissible
   * digit test counts at least the ASCII digits, and the other two fields
   * do not depend on the digit test.
   */
  lemma AsciiDigitCountIsLowerBound(url: string, isDigit: char -> bool)
    requires DigitClass(isDigit)
    ensures var a, f := ExtractAsciiFeatures(url), ExtractFeatures(url, isDigit);
      a.urlLength == f.urlLength && a.specialCharCount == f.specialCharCount &&
      a.digitCount <= f.digitCount
  {
    CountWhereMono(url, IsAsciiDigit, isDigit);
  }

  /** On an all-ASCII string, an admissible digit test counts the ASCII digits. */
  lemma {:induction false} AgreeOnAscii(s: string, isDigit: char -> bool)
    requires DigitClass(isDigit)
    requires AllAscii(s)
    ensures CountWhere(s, isDigit) == CountWhere(s, IsAsciiDigit)
  {
    if s != [] {
      assert IsAscii(s[0]);
      assert AllAscii(s[1..]) by {
        forall i | 0 <= i < |s[1..]|
          ensures IsAscii(s[1..][i])
        {
          assert s[1..][i] == s[i + 1];
        }
      }
      AgreeOnAscii(s[1..], isDigit);
    }
  }

  /**
   * On an all-ASCII URL the ASCII extractor is exact: it gives the same
   * features as every admissible digit test, `str.isdigit` among them.
   */
  lemma AsciiExact(url: string, isDigit: char -> bool)
    requires DigitClass(isDigit)
    requires AllAscii(url)
    ensures ExtractFeatures(url, isDigit) == ExtractAsciiFeatures(url)
  {
    AgreeOnAscii(url, isDigit);
  }

  // ---------------------------------------------------------------------
  // Worked examples

  /** `s` holds `specials` special characters and `digits` ASCII digits. */
  predicate PieceCounts(s: string, specials: nat, digits: nat) {
    CountWhere(s, IsSpecial) == specials && CountWhere(s, IsAsciiDigit) == digits &&
    CountWhere(s, IsAscii) == |s|
  }

  /**
   * The counts of a concatenation are the sums of the counts of its parts.
   * This is `ExtractFeaturesAppend` for the ASCII digit test, stated on
   * pieces so that each literal piece of an example URL is counted in a
   * proof of its own, which keeps each proof small.
   */
  lemma JoinPieces(a: string, b: string, sa: nat, da: nat, sb: nat, db: nat)
    requires PieceCounts(a, sa, da) && PieceCounts(b, sb, db)
    ensures PieceCounts(a + b, sa + sb, da + db)
  {
    CountWhereAppend(a, b, IsSpecial);
    CountWhereAppend(a, b, IsAsciiDigit);
    CountWhereAppend(a, b, IsAscii);
  }

  /**
   * A URL made of counted pieces has those features for every admissible
   * digit test, `str.isdigit` among them, since all its characters are ASCII.
   */
  lemma PiecesFeatures(url: string, specials: nat, digits: nat, isDigit: char -> bool)
    requires PieceCounts(url, specials, digits)
    requires DigitClass(isDigit)
    ensures ExtractFeatures(url, isDigit) == Features(|url|, specials, digits)
  {
    CountWhereFull(url, IsAscii);
    AsciiExact(url, isDigit);
  }

  // The pieces the example URLs are made of, counted one by one.
  lemma SchemeHttps() ensures PieceCounts("https", 0, 0) {}
  lemma SchemeHttp() ensures PieceCounts("http", 0, 0) {}
  lemma Separator() ensures PieceCounts("://", 2, 0) {}
  lemma Google() ensures PieceCounts("google", 0, 0) {}
  lemma DotCom() ensures PieceCounts(".com", 1, 0) {}
  lemma Login() ensures PieceCounts("login", 0, 0) {}
  lemma DashBank() ensures PieceCounts("-bank", 1, 0) {}
  lemma DashExample() ensures PieceCounts("-example", 1, 0) {}
  lemma Octet192() ensures PieceCounts("192.", 1, 3) {}
  lemma Octet168() ensures PieceCounts("168.", 1, 3) {}
  lemma Octets11() ensures PieceCounts("1.1", 1, 2) {}
  lemma SlashLogin() ensures PieceCounts("/login", 1, 0) {}

  /**
   * The app's default input, "https://google.com": two '/' and one '.' are
   * special, ':' is not, and there are no digits.
   */
  lemma DefaultInputFeatures(isDigit: char -> bool)
    requires DigitClass(isDigit)
    ensures ExtractFeatures("https" + "://" + "google" + ".com", isDigit) == Features(18, 3, 0)
  {
    SchemeHttps(); Separator(); Google(); DotCom();
    JoinPieces("https", "://", 0, 0, 2, 0);
    JoinPieces("https" + "://", "google", 2, 0, 0, 0);
    JoinPieces("https" + "://" + "google", ".com", 2, 0, 1, 0);
    PiecesFeatures("https" + "://" + "google" + ".com", 3, 0, isDigit);
  }

  /** The first four pieces of the prompt's example, "https://login-bank". */
  lemma PromptPrefix()
    ensures PieceCounts("https" + "://" + "login" + "-bank", 3, 0)
  {
    SchemeHttps(); Separator(); Login(); DashBank();
    JoinPieces("https", "://", 0, 0, 2, 0);
    JoinPieces("https" + "://", "login", 2, 0, 0, 0);
    JoinPieces("https" + "://" + "login", "-bank", 2, 0, 1, 0);
  }

  /** The example in the app's input prompt, "https://login-bank-example.com". */
  lemma PromptExampleFeatures(isDigit: char -> bool)
    requires DigitClass(isDigit)
    ensures ExtractFeatures("https" + "://" + "login" + "-bank" + "-example" + ".com", isDigit) == Features(30, 5, 0)
  {
    PromptPrefix(); DashExample(); DotCom();
    JoinPieces("https" + "://" + "login" + "-bank", "-example", 3, 0, 1, 0);
    JoinPieces("https" + "://" + "login" + "-bank" + "-example", ".com", 4, 0, 1, 0);
    PiecesFeatures("https" + "://" + "login" + "-bank" + "-example" + ".com", 5, 0, isDigit);
  }

  /** A numeric host, "http://192.168.1.1/login": eight digits, six special characters. */
  lemma NumericHostFeatures(isDigit: char -> bool)
    requires DigitClass(isDigit)
    ensures ExtractFeatures("http" + "://" + "192." + "168." + "1.1" + "/login", isDigit) == Features(24, 6, 8)
  {
    SchemeHttp(); Separator(); Octet192(); Octet168(); Octets11(); SlashLogin();
    JoinPieces("http", "://", 0, 0, 2, 0);
    JoinPieces("http" + "://", "192.", 2, 0, 1, 3);
    JoinPieces("http" + "://" + "192.", "168.", 3, 3, 1, 3);
    JoinPieces("http" + "://" + "192." + "168.", "1.1", 4, 6, 1, 2);
    JoinPieces("http" + "://" + "192." + "168." + "1.1", "/login", 5, 8, 1, 0);
    PiecesFeatures("http" + "://" + "192." + "168." + "1.1" + "/login", 6, 8, isDigit);
  }
}
