# Nominatim results and their house numbers

This project models `NominatimResult` from Photon's Nominatim import. A
`NominatimResult` holds the base document of one OpenStreetMap object and a
map from house-number string to position. The import fills the map in three
ways:

- from explicit house-number tags (`housenumber`, `streetnumber`,
  `conscriptionnumber`), where one tag value may name several numbers
  separated by `;`;
- from an old-style address interpolation line (`odd`, `even` or any other
  type, both ends excluded);
- from a new-style interpolation line (an explicit step, the first number
  excluded and the last included).

Before indexing, the result expands into one document per house number.

The model has five modules:

- `Wrappers` (`wrappers.dfy`): the `Option` type that stands for a Java
  reference that may be `null`.
- `JavaStrings` (`java_strings.dfy`): the parts of `java.lang.String` the
  code relies on.
  - `String.trim` removes every character up to U+0020 at both ends.
  - `String.split(";")` is a field splitter.
  - `String.valueOf(long)` is a decimal rendering, proved injective.
- `Photon` (`photon.dfy`): points, the length-indexed interpolation line and
  the indexed document.
- `Housenumbers` (`housenumbers.dfy`): specification functions for every
  update of the map, with lemmas proving the collector's and the
  interpolations' properties.
- `Nominatim` (`nominatim_result.dfy`): the class `NominatimResult`.
  - The methods update the `housenumbers` field in place, with the same
    loops as the Java code.
  - Each method's contract states its new map as a function of the old
    one. That function is the specification function in `Housenumbers`.
  - Every method keeps the invariant that all keys are proper house
    numbers: non-empty, starting and ending with a character `trim` keeps,
    and free of `;`.

Java semantics that matter here are written out:

- The remainder `first % 2` truncates toward zero (`JavaRem`).
- The loops' counters and bounds are `num + first < last` (old style) and
  `num + first <= last` (new style).
- Keys are `String.valueOf(num + first)`.

One consequence is proved rather than hidden (`OldStyleOddNegativeFirst`).
With type `odd` and a negative odd `first`, Java's `first % 2` is `-1`, so
the parity correction is skipped and the even numbers of the range are
generated. The odd-type property (`OldStyleOdd`) is therefore stated for
`first >= 0` or an even `first`. Negative house numbers do not occur in
OpenStreetMap data, so this is recorded as behaviour, not as a defect.

## Model

| member | source | states |
|---|---|---|
| Nominatim.NominatimResult.constructor | src/main/java/de/komoot/photon/nominatim/NominatimResult.java:23-26 | The result holds the given base document and no house numbers. |
| Nominatim.NominatimResult.GetBaseDoc | src/main/java/de/komoot/photon/nominatim/NominatimResult.java:28-30 | Returns the base document the result was built from. |
| Nominatim.NominatimResult.IsUsefulForIndex | src/main/java/de/komoot/photon/nominatim/NominatimResult.java:32-34 | Worth indexing if and only if some house number is present or the base document is useful by itself. |
| Nominatim.NominatimResult.GetDocsWithHousenumber | src/main/java/de/komoot/photon/nominatim/NominatimResult.java:36-50 | No house numbers gives exactly `[doc]`. Otherwise there is one document per map entry, as many as entries, each house number once. Each document is the base document with that key as house number and its position as centroid. |
| Nominatim.ExpandedHousenumbersProper | src/main/java/de/komoot/photon/nominatim/NominatimResult.java:42-46 | With every key of the map proper, every document expanded from it carries a proper house number. |
| Photon.WithHousenumber | src/main/java/de/komoot/photon/nominatim/NominatimResult.java:43-45 | The copy has the given house number and centroid and agrees with the base document in every other part. |
| Nominatim.NominatimResult.AddHousenumbersFromString | src/main/java/de/komoot/photon/nominatim/NominatimResult.java:61-74 | The loop over the split fields leaves the map equal to `AddFromString` of the old map and keeps every key proper. |
| Housenumbers.AddFromString | src/main/java/de/komoot/photon/nominatim/NominatimResult.java:61-73 | New keys are the old keys plus the house numbers of the string. Those numbers map to the centroid. Every other entry keeps its value. |
| Housenumbers.AddFromStringAbsent | src/main/java/de/komoot/photon/nominatim/NominatimResult.java:62-63 | An absent or empty string leaves the map unchanged. |
| Housenumbers.HousenumbersIn | src/main/java/de/komoot/photon/nominatim/NominatimResult.java:68-72 | Every house number read from a string is a proper key: non-empty, trimmed ends, no `;`. |
| Housenumbers.AddFromStringKeysValid | src/main/java/de/komoot/photon/nominatim/NominatimResult.java:68-73 | The collector only ever adds proper keys. |
| Housenumbers.CollectJoined | src/main/java/de/komoot/photon/nominatim/NominatimResult.java:68-72 | Proper house numbers joined with `;` are read back as exactly the same set. |
| Housenumbers.HousenumberKeyIsTrimmed | src/main/java/de/komoot/photon/nominatim/NominatimResult.java:70-72 | A proper key is exactly a non-empty string without `;` that `trim` leaves unchanged. |
| Housenumbers.Lookup | src/main/java/de/komoot/photon/nominatim/NominatimResult.java:81-83 | `Map.get`: a value exactly when the tag is present, and then the tag's value. |
| Housenumbers.AddFromAddress | src/main/java/de/komoot/photon/nominatim/NominatimResult.java:76-84 | Absent address: the map unchanged. Otherwise the keys are the old keys plus every house number of the three tags, each mapped to the centroid. |
| Nominatim.NominatimResult.AddHousenumbersFromAddress | src/main/java/de/komoot/photon/nominatim/NominatimResult.java:76-84 | An absent address is a no-op. Otherwise the result is the collector run on `housenumber`, `streetnumber`, `conscriptionnumber` in that order. |
| Housenumbers.AddressTagsMerge | src/main/java/de/komoot/photon/nominatim/NominatimResult.java:76-84 | The three tags are merged, not ranked: the result is the old map with every number of any tag mapped to the centroid. |
| Nominatim.NominatimResult.AddHouseNumbersFromInterpolation | src/main/java/de/komoot/photon/nominatim/NominatimResult.java:98-127 | Range guard, parity correction and loop leave the map equal to `OldStyleInterpolation` of the old map. Keys stay proper. |
| Housenumbers.OldStyleInterpolation | src/main/java/de/komoot/photon/nominatim/NominatimResult.java:98-126 | The old-style update of the map: it only adds keys, and outside the range guard it changes nothing. Inside, it is the shared loop from the corrected start with the type's step, below last. |
| Housenumbers.JavaRem | src/main/java/de/komoot/photon/nominatim/NominatimResult.java:113-118 | Java's `%`: the remainder has the sign of the dividend, is smaller than the divisor in magnitude, and differs from the dividend by a multiple of the divisor. |
| Housenumbers.OldStyleStart | src/main/java/de/komoot/photon/nominatim/NominatimResult.java:112-121 | The corrected first offset, 1 or 2. With `odd` (first non-negative or even) it lands on an odd number. With `even` it lands on an even number. Any other type starts at 1. |
| Housenumbers.OldStyleStep | src/main/java/de/komoot/photon/nominatim/NominatimResult.java:111-121 | Step 2 exactly for `odd` and `even`, step 1 for every other type. |
| Housenumbers.ParityProgression | src/main/java/de/komoot/photon/nominatim/NominatimResult.java:111-124 | Counting by two from the first number of a parity after first visits exactly the numbers of that parity strictly between first and last. |
| Housenumbers.OldStyleRangeGuard | src/main/java/de/komoot/photon/nominatim/NominatimResult.java:99-100 | A reversed, empty or wider-than-1000 range leaves the map unchanged. A range of width 3 to 1000, the bound included, adds at least one number. |
| Housenumbers.OldStyleNumbers | src/main/java/de/komoot/photon/nominatim/NominatimResult.java:110-124 | Every old-style number lies strictly between first and last, and there are none outside the range guard. |
| Housenumbers.OldStyleInterpolationKeys | src/main/java/de/komoot/photon/nominatim/NominatimResult.java:124-126 | The keys after the interpolation are the old keys plus the renderings of the old-style numbers, nothing else. |
| Housenumbers.OldStyleInterpolationValues | src/main/java/de/komoot/photon/nominatim/NominatimResult.java:124-125 | Each old-style number is mapped to the point `h - first` steps along the line, overwriting any earlier value. |
| Housenumbers.OldStyleInterpolationOthers | src/main/java/de/komoot/photon/nominatim/NominatimResult.java:124-125 | An entry whose key is not an old-style number keeps its value. |
| Housenumbers.OldStyleInterpolationValid | src/main/java/de/komoot/photon/nominatim/NominatimResult.java:124-125 | The old-style interpolation only adds proper keys. |
| Housenumbers.OldStyleMembers | src/main/java/de/komoot/photon/nominatim/NominatimResult.java:111-124 | In closed form: h is added if and only if it lies below last, at or after the corrected start, a whole number of steps from it. |
| Housenumbers.OldStyleOdd | src/main/java/de/komoot/photon/nominatim/NominatimResult.java:113-115 | With `odd`, and first non-negative or even, the numbers added are exactly the odd numbers strictly inside the range. |
| Housenumbers.OldStyleOddNegativeFirst | src/main/java/de/komoot/photon/nominatim/NominatimResult.java:113-115 | With `odd` and a negative odd first, the numbers added are exactly the even numbers strictly inside the range. |
| Housenumbers.OldStyleEven | src/main/java/de/komoot/photon/nominatim/NominatimResult.java:116-118 | With `even`, the numbers added are exactly the even numbers strictly inside the range, for every first. |
| Housenumbers.OldStyleAll | src/main/java/de/komoot/photon/nominatim/NominatimResult.java:119-121 | Any other type adds every number strictly inside the range: `last - first - 1` distinct keys. |
| Nominatim.NominatimResult.AddHouseNumbersFromInterpolationWithStep | src/main/java/de/komoot/photon/nominatim/NominatimResult.java:140-156 | Range guard and loop leave the map equal to `NewStyleInterpolation` of the old map. Keys stay proper. |
| Housenumbers.NewStyleInterpolation | src/main/java/de/komoot/photon/nominatim/NominatimResult.java:140-155 | The new-style update of the map: it only adds keys, and outside the range guard it changes nothing. Inside, it is the shared loop from offset 1 with the given step, up to and including last. |
| Housenumbers.NewStyleRangeGuard | src/main/java/de/komoot/photon/nominatim/NominatimResult.java:141-142 | A reversed, empty or wider-than-1000 range leaves the map unchanged, whatever the step. Numbers are added if and only if the range passes the guard, width 1000 included. |
| Housenumbers.NewStyleNumbers | src/main/java/de/komoot/photon/nominatim/NominatimResult.java:153 | Every new-style number is above first and at most last, and there are none outside the range guard. |
| Housenumbers.NewStyleInterpolationKeys | src/main/java/de/komoot/photon/nominatim/NominatimResult.java:153-155 | The keys after the interpolation are the old keys plus the renderings of the new-style numbers, nothing else. |
| Housenumbers.NewStyleInterpolationValues | src/main/java/de/komoot/photon/nominatim/NominatimResult.java:153-154 | Each new-style number is mapped to the point `h - first` steps along the line, overwriting any earlier value. |
| Housenumbers.NewStyleInterpolationOthers | src/main/java/de/komoot/photon/nominatim/NominatimResult.java:153-154 | An entry whose key is not a new-style number keeps its value. |
| Housenumbers.NewStyleInterpolationValid | src/main/java/de/komoot/photon/nominatim/NominatimResult.java:153-154 | The new-style interpolation only adds proper keys. |
| Housenumbers.NewStyleMembers | src/main/java/de/komoot/photon/nominatim/NominatimResult.java:153 | In closed form: h is added if and only if `first < h <= last` and `h - first - 1` is a multiple of step. |
| Housenumbers.NewStyleUnitStep | src/main/java/de/komoot/photon/nominatim/NominatimResult.java:153 | With step 1, exactly the numbers first + 1 to last are added: `last - first` distinct keys. |
| Housenumbers.NewStyleExample | src/main/java/de/komoot/photon/nominatim/NominatimResult.java:153 | From 100 to 110 in steps of 5, exactly 101 and 106 are added. |
| Housenumbers.InterpolateFrom | src/main/java/de/komoot/photon/nominatim/NominatimResult.java:124-126 | The loop both styles run (also lines 153-155). It writes `String.valueOf(num + first)` at the point num steps along the line while `num + first` is below the limit, and it never removes a key. |
| Housenumbers.LStep | src/main/java/de/komoot/photon/nominatim/NominatimResult.java:106-108 | The length-index step: `last - first` steps span the line from its start index to its end index. |
| Housenumbers.PointAt | src/main/java/de/komoot/photon/nominatim/NominatimResult.java:125 | The point num steps along the line (also line 154). Offset 0 is the start of the line. |
| Housenumbers.InterpolateFromKeys | src/main/java/de/komoot/photon/nominatim/NominatimResult.java:124-126 | The loop shared by both styles adds exactly the renderings of its progression's numbers to the old keys. |
| Housenumbers.InterpolateFromAt | src/main/java/de/komoot/photon/nominatim/NominatimResult.java:124-125 | After the shared loop, each number of the progression maps to its point along the line. |
| Housenumbers.InterpolateFromOthers | src/main/java/de/komoot/photon/nominatim/NominatimResult.java:124-125 | The shared loop leaves every entry unchanged whose key is not a rendering of a progression number. |
| Housenumbers.InterpolateFromNewKeys | src/main/java/de/komoot/photon/nominatim/NominatimResult.java:124-125 | Every key the shared loop adds renders a number of its progression. |
| Housenumbers.InterpolateFromKeysValid | src/main/java/de/komoot/photon/nominatim/NominatimResult.java:125 | The shared loop keeps every key proper. |
| Housenumbers.ProgressionMembers | src/main/java/de/komoot/photon/nominatim/NominatimResult.java:124 | The counter visits exactly the numbers below the limit that are whole steps from the start. |
| Housenumbers.NumberKeysOfRange | src/main/java/de/komoot/photon/nominatim/NominatimResult.java:125 | n consecutive numbers render to n distinct keys. |
| Housenumbers.IntToStringIsKey | src/main/java/de/komoot/photon/nominatim/NominatimResult.java:125 | The rendering of any number is a proper key. |
| Housenumbers.OffsetOnLine | src/main/java/de/komoot/photon/nominatim/NominatimResult.java:106-108 | For offsets 0 to `last - first`, the length index stays between the line's start and end. |
| Housenumbers.LastAtLineEnd | src/main/java/de/komoot/photon/nominatim/NominatimResult.java:108 | The offset `last - first` reaches exactly the end of the line. |
| JavaStrings.IntToString | src/main/java/de/komoot/photon/nominatim/NominatimResult.java:125 | `String.valueOf(long)` (also line 154): the rendering is never empty. `IntToStringChars` proves it holds only digits and `-`, and `IntToStringInjective` proves distinct numbers render differently. |
| JavaStrings.IntToStringInjective | src/main/java/de/komoot/photon/nominatim/NominatimResult.java:125 | Distinct numbers render to distinct strings, negatives included. |
| JavaStrings.IntToStringChars | src/main/java/de/komoot/photon/nominatim/NominatimResult.java:125 | A rendering consists of decimal digits and possibly a `-`. |
| JavaStrings.Trim | src/main/java/de/komoot/photon/nominatim/NominatimResult.java:70 | The trimmed string is no longer than the input and, unless empty, starts and ends with a kept character. |
| JavaStrings.TrimStart | src/main/java/de/komoot/photon/nominatim/NominatimResult.java:70 | The result is a suffix of the input, and every character removed is trimmable. |
| JavaStrings.TrimEnd | src/main/java/de/komoot/photon/nominatim/NominatimResult.java:70 | The result is a prefix of the input, and every character removed is trimmable. |
| JavaStrings.TrimIdempotent | src/main/java/de/komoot/photon/nominatim/NominatimResult.java:70 | Trimming twice is trimming once. |
| JavaStrings.TrimChars | src/main/java/de/komoot/photon/nominatim/NominatimResult.java:70 | Every character of the trimmed string occurs in the input, so a field without `;` stays without `;`. |
| JavaStrings.Split | src/main/java/de/komoot/photon/nominatim/NominatimResult.java:68 | There is at least one field, and no field contains the separator. |
| JavaStrings.JoinSplit | src/main/java/de/komoot/photon/nominatim/NominatimResult.java:68 | Joining the fields with the separator gives back the string. |
| JavaStrings.SplitJoin | src/main/java/de/komoot/photon/nominatim/NominatimResult.java:68 | Splitting separator-free fields joined by the separator gives back the fields. |

## Left out

- `Server.java` is not part of this model: it starts Elasticsearch, copies files and manages the index, all of it I/O.
- The geometry library is abstracted.
  - `LengthIndexedLine` and `GeometryFactory.createPoint` become `IndexedLine`.
  - An `IndexedLine` holds the start and end length indices and an uninterpreted `extractPoint`.
  - Length indices are exact reals. Double rounding in `lstep` and `si + lstep * num` is not modelled.
- `long` arithmetic is unbounded here. Overflow of `last - first`, `num + first` or `num += step` near the ends of the 64-bit range is not modelled.
- Housenumbers.OldStyleRangeGuard and Housenumbers.NewStyleRangeGuard hold only for ranges whose width `last - first` fits in a `long`.
  - When the subtraction wraps negative (for example first = -2^62, last = 2^62, whose difference 2^63 wraps to the most negative `long`), Java's guard at lines 99 and 141 does not fire, and the loop runs for an astronomically long time.
- Nominatim.NominatimResult.AddHouseNumbersFromInterpolationWithStep: requires `step >= 1` only for ranges that pass the range guard (`InRange(first, last) ==> step >= 1`).
  - A rejected range returns at lines 141-142 whatever the step, and the model leaves the map unchanged for it.
  - For a range that passes the guard, a step of zero or less never lets the Java loop reach its bound (short of overflow), so it does not terminate. That case is not modelled.
  - Housenumbers.NewStyleNumbers, Housenumbers.NewStyleInterpolation, Housenumbers.NewStyleRangeGuard and the NewStyleInterpolation lemmas carry the same requires.
- Housenumbers.NewStyleNumbers: `first < h <= last` holds only while `num += step` does not overflow, that is when `last - first + step` fits in a `long`.
  - With first = 0, last = 10 and step = Long.MAX_VALUE, Java adds "1", then `num` wraps to the most negative `long` and it adds "-9223372036854775808", then "-1", before `num` turns positive and exceeds the bound. The model adds only "1".
- Nominatim.NominatimResult.AddHouseNumbersFromInterpolation: takes the interpolation type as a string that is always present.
  - A `null` type throws `NullPointerException` at line 113 in Java, but only for a range that passes the guard at lines 99-100; a rejected range returns first. That exception is not modelled.
- Nominatim.NominatimResult.GetDocsWithHousenumber: picks the map entries in an unspecified order, since `HashMap` iteration order is not modelled.
  - The contract states a one-to-one correspondence with the entries, not an order.
  - Whether the returned list is immutable (`ImmutableList`) or not (`ArrayList`) is not modelled.
- The `housenumbers` map is `null` in Java until the first call that gets past its early return creates it (lines 65-66, 102-103, 144-145). Such a call may still insert nothing: `addHousenumbersFromString(";")`, or an odd-style range of width 2 starting at an odd number, leaves an empty `HashMap`. Here the map is empty from the start; the readers at lines 33 and 37 treat `null` and empty alike, so nothing observable differs.
- `PhotonDoc`'s own fields and its copy constructor are not part of this model.
  - The document is a record with a house number, a centroid, its own usefulness verdict and the remaining attributes.
  - The copy is a record update.
- Java's `split` drops trailing empty fields and `Split` keeps them. The collector skips empty fields, so the keys added are the same.
- A `null` string or address is modelled as `None` of an `Option`. A missing tag is `Lookup` returning `None`, like `Map.get` returning `null`.
