# Lexical URL features of the phishing detector

The phishing detector reduces a URL to three numbers and hands them to a
trained classifier. `extract_features(url)` returns a dictionary with three
keys, in this order:

- `url_length` is the number of characters.
- `special_char_count` counts the occurrences of the seven characters `. - @ / ? = _`.
- `digit_count` counts the characters for which `str.isdigit` holds.

The app builds the classifier's one-row input from that dictionary. The
columns are the keys and the row is the values, in insertion order.

The model is one Dafny module, `FeaturesExtraction`, in
`features_extraction.dfy`. The source is pure: it has no loop that updates
state and no object. So the model is made of datatypes, recursive
functions and lemmas.

- A URL is a `string`, i.e. `seq<char>` of Unicode scalar values. For every string `st.text_input` can deliver, `|url|` is Python's `len`.
- `Features` is the record of the three counts. `AsDict` gives the dictionary as its (key, value) items in insertion order. `Lookup` is `d.get(key)`: the stored value, or `None` for an absent key. The source never reads the dictionary by key, so `Lookup` serves only to state what the dictionary holds. `FeatureRow` is the classifier's input row.
- `str.isdigit` consults the Unicode character database, which is not part of this model. `ExtractFeatures` therefore takes the digit test as a parameter `isDigit`. The lemmas that need to know anything about it require `DigitClass(isDigit)`: the ASCII digits pass, none of the seven special characters does, and on ASCII characters exactly `'0'..'9'` pass. `str.isdigit` satisfies all three. `ExtractAsciiFeatures` fixes the test to ASCII `'0'..'9'`, and `AsciiExact` proves that on an all-ASCII URL it gives the same features as every such test.
- Line 12 sums seven `str.count` calls, one per special character. `SumOfCounts` models that formula literally. `ExtractFeatures` counts positions whose character is special, and `SpecialCountIsSumOfCounts` proves the two numbers equal for every URL. That equality holds because no special character is listed twice.

## Model

| member | source | states |
|---|---|---|
| FeaturesExtraction.ExtractFeatures | features_extraction.py:9-20 | for every URL, with no precondition and no error result: the length is the number of characters; the special and digit counts each lie between 0 and the length; the empty URL gives (0, 0, 0) |
| FeaturesExtraction.ExtractAsciiFeatures | features_extraction.py:9-20 | with ASCII digits: the length is the number of characters, and the special count plus the digit count never exceeds it |
| FeaturesExtraction.CountWhere | features_extraction.py:14 | the number of characters passing a test is at most the length of the string |
| FeaturesExtraction.SumOfCounts | features_extraction.py:12 | line 12's sum of one `count` per listed character, word for word; its contract bounds it by the number of listed characters times the length, and its meaning is proved by `SpecialCountIsSumOfCounts` and `SumOfCountsIsMemberCount` |
| FeaturesExtraction.CountChar | features_extraction.py:12 | `url.count(c)` for one character is at most the length of the string |
| FeaturesExtraction.SpecialCountIsSumOfCounts | features_extraction.py:11-12 | the special count equals the sum, over the seven special characters, of the occurrences of each |
| FeaturesExtraction.SumOfCountsIsMemberCount | features_extraction.py:12 | when no character is listed twice, summing one `count` per listed character equals counting the positions whose character is listed |
| FeaturesExtraction.CountMemberCons | features_extraction.py:12 | counting members of `[c] + cs`, where `c` is not in `cs`, is the occurrences of `c` plus the count of members of `cs` |
| FeaturesExtraction.SpecialCharsAreSpecial | features_extraction.py:11 | the listed special characters are exactly those `IsSpecial` accepts, and no character is listed twice |
| FeaturesExtraction.AsciiDigitClass | features_extraction.py:14 | the ASCII digit test is an admissible digit test: every ASCII digit passes and no special character does |
| FeaturesExtraction.FeaturesBound | features_extraction.py:12-14 | for any admissible digit test, no character is both special and a digit, so special count plus digit count is at most the length |
| FeaturesExtraction.NoDigits | features_extraction.py:14 | the digit count is zero if and only if no character passes the digit test |
| FeaturesExtraction.NoSpecials | features_extraction.py:11-12 | the special count is zero if and only if no character is special |
| FeaturesExtraction.CountWhereZero | features_extraction.py:14 | a count is zero if and only if no position passes the test |
| FeaturesExtraction.CountWhereFull | features_extraction.py:14 | a count equals the length if and only if every position passes the test |
| FeaturesExtraction.CountWhereMono | features_extraction.py:14 | a test accepting more characters never counts fewer positions |
| FeaturesExtraction.CountWhereDisjoint | features_extraction.py:12-14 | two tests that no character passes together count at most the length between them |
| FeaturesExtraction.CountWhereAppend | features_extraction.py:14 | the count over `s + t` is the count over `s` plus the count over `t` |
| FeaturesExtraction.ExtractFeaturesAppend | features_extraction.py:9-14 | each feature of a concatenation is the sum of that feature over the parts |
| FeaturesExtraction.AsciiDigitCountIsLowerBound | features_extraction.py:14 | for any admissible digit test, the ASCII-only extractor has the same length and special count and a digit count that is no larger |
| FeaturesExtraction.AgreeOnAscii | features_extraction.py:14 | on an all-ASCII string, every admissible digit test counts exactly the ASCII digits |
| FeaturesExtraction.AsciiExact | features_extraction.py:9-20 | on an all-ASCII URL, the ASCII extractor gives the same three features as every admissible digit test, `str.isdigit` among them |
| FeaturesExtraction.AsDict | features_extraction.py:16-20 | the dictionary's keys are `url_length`, `special_char_count`, `digit_count`, in that order |
| FeaturesExtraction.DictLookup | features_extraction.py:16-20 | each of the three keys maps to its field, and every other key is absent |
| FeaturesExtraction.Lookup | features_extraction.py:16-20 | `d.get(key)`: the result is `None` exactly when `key` is not among the dictionary's keys |
| FeaturesExtraction.ThreeItems | features_extraction.py:16-20 | for a three-item dictionary, the keys, the values and every lookup are given item by item |
| FeaturesExtraction.Keys | app.py:87 | `features.keys()` has one entry per item |
| FeaturesExtraction.Values | app.py:87 | `features.values()` has one entry per item |
| FeaturesExtraction.FeatureRow | app.py:87 | the classifier row has exactly three columns, and column i holds the value the dictionary stores under the i-th feature name |
| FeaturesExtraction.JoinPieces | features_extraction.py:12-14 | the special and digit counts of a concatenation are the sums of those of its parts, and it is all ASCII when its parts are |
| FeaturesExtraction.PiecesFeatures | features_extraction.py:9-20 | an all-ASCII URL with known special and ASCII digit counts has exactly those features for every admissible digit test |
| FeaturesExtraction.DefaultInputFeatures | app.py:71 | for every admissible digit test, `str.isdigit` among them: the default input `https://google.com` gives length 18, special count 3 and digit count 0 |
| FeaturesExtraction.PromptExampleFeatures | app.py:71 | for every admissible digit test: the prompt's example `https://login-bank-example.com` gives length 30, special count 5 and digit count 0 |
| FeaturesExtraction.NumericHostFeatures | features_extraction.py:9-14 | for every admissible digit test: `http://192.168.1.1/login` gives length 24, special count 6 and digit count 8 |

## Left out

- ExtractAsciiFeatures: counts only ASCII `'0'..'9'` as digits, because the Unicode character database behind `str.isdigit` is not part of this model. It is exact on all-ASCII input (`AsciiExact`). It undercounts only non-ASCII digits such as superscripts (`AsciiDigitCountIsLowerBound`).
- A Python `str` can hold a lone surrogate, which a Dafny `char` cannot. Such strings are not modelled.
- The pandas `DataFrame` is modelled only as its row and its column order (`FeatureRow`, `Keys`). Types, dtypes and the index are not modelled.
- Everything else in `app.py` is left out because it is I/O or a call into code this model cannot see:
  - the Streamlit page, layout, buttons and messages;
  - the logo image;
  - choosing one of the three classifiers and loading it from its pickle file;
  - `predict` and `predict_proba`;
  - the confidence percentage, which is floating point;
  - the mapping from label 0/1 to Legitimate/Phishing;
  - the exception handler;
  - the "About" and feedback sections.
