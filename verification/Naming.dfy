/** How both background scripts name an upload: the original file name is
    taken from the media URL and cleaned of invisible characters, then made
    unique with the clock and a random base-36 string. */
module Naming {
  import opened JsString

  /** `mediaURL.split("/").pop().split("?")[0]`: the text after the last
      slash, cut at its first question mark. */
  function OriginalFilename(mediaUrl: string): (name: string)
    ensures '/' !in name && '?' !in name
    ensures name <= Last(Split(mediaUrl, '/'))
    ensures |name| < |Last(Split(mediaUrl, '/'))| ==> Last(Split(mediaUrl, '/'))[|name|] == '?'
  {
    Split(Last(Split(mediaUrl, '/')), '?')[0]
  }

  /** The characters the background scripts strip from a file name:
      U+200B to U+200D (zero-width space, non-joiner and joiner) and U+FEFF
      (zero-width no-break space, the byte-order mark). */
  predicate IsInvisible(ch: char)
  {
    ('\U{200B}' <= ch <= '\U{200D}') || ch == '\U{FEFF}'
  }

  /** The file name with every invisible character removed, as the global
      regular-expression replace does it. */
  function Sanitize(name: string): (clean: string)
    ensures |clean| <= |name|
    ensures forall i :: 0 <= i < |clean| ==> !IsInvisible(clean[i])
  {
    if name == [] then []
    else (if IsInvisible(name[0]) then [] else [name[0]]) + Sanitize(name[1..])
  }

  /** Sanitising works character by character, keeping the order. */
  lemma {:induction false} SanitizeAppend(a: string, b: string)
    ensures Sanitize(a + b) == Sanitize(a) + Sanitize(b)
    decreases |a|
  {
    if a == [] {
      assert a + b == b;
    } else {
      assert (a + b)[1..] == a[1..] + b;
      assert (a + b)[0] == a[0];
      SanitizeAppend(a[1..], b);
      var head := if IsInvisible(a[0]) then [] else [a[0]];
      assert head + (Sanitize(a[1..]) + Sanitize(b)) == (head + Sanitize(a[1..])) + Sanitize(b);
    }
  }

  /** A name without invisible characters is left as it is. */
  lemma {:induction false} SanitizeKeepsVisible(name: string)
    requires forall i :: 0 <= i < |name| ==> !IsInvisible(name[i])
    ensures Sanitize(name) == name
    decreases |name|
  {
    if name != [] {
      SanitizeKeepsVisible(name[1..]);
    }
  }

  /** An invisible character is dropped, not replaced: removing it leaves
      the text on both sides joined together. */
  lemma SanitizeDropsInvisible(a: string, ch: char, b: string)
    requires IsInvisible(ch)
    ensures Sanitize(a + [ch] + b) == Sanitize(a + b)
  {
    SanitizeAppend(a + [ch], b);
    SanitizeAppend(a, [ch]);
    SanitizeAppend(a, b);
    assert Sanitize([ch]) == [] by { assert [ch][1..] == []; }
    assert Sanitize(a) + [] == Sanitize(a);
  }

  /** Sanitising twice is sanitising once. */
  lemma {:induction false} SanitizeIdempotent(name: string)
    ensures Sanitize(Sanitize(name)) == Sanitize(name)
  {
    SanitizeKeepsVisible(Sanitize(name));
  }

  /** The example: a zero-width space inside a name disappears. */
  lemma SanitizeExample()
    ensures Sanitize("a\U{200B}b.png") == "ab.png"
  {
    var name := "ab.png";
    assert "a\U{200B}b.png" == name[..1] + ['\U{200B}'] + name[1..];
    SanitizeDropsInvisible(name[..1], '\U{200B}', name[1..]);
    assert name[..1] + name[1..] == name;
    SanitizeKeepsVisible(name);
  }

  /** The decimal digit `d`. */
  function Digit(d: nat): (ch: char)
    requires d < 10
    ensures '0' <= ch <= '9'
  {
    (48 + d) as char
  }

  /** How a template literal prints the non-negative integer `Date.now()`:
      decimal digits without leading zeros. */
  function Decimal(n: nat): (digits: string)
    ensures |digits| >= 1
    ensures forall i :: 0 <= i < |digits| ==> '0' <= digits[i] <= '9'
    ensures digits[0] == '0' <==> n == 0
  {
    if n < 10 then [Digit(n)] else Decimal(n / 10) + [Digit(n % 10)]
  }

  /** Reads a string of decimal digits back as a number. */
  function ParseDecimal(digits: string): nat
    requires forall i :: 0 <= i < |digits| ==> '0' <= digits[i] <= '9'
  {
    if digits == [] then 0
    else ParseDecimal(digits[..|digits| - 1]) * 10 + (digits[|digits| - 1] as int - 48)
  }

  /** Round trip: the printed timestamp reads back as the timestamp, so
      different timestamps print differently. */
  lemma {:induction false} ParseDecimalOfDecimal(n: nat)
    ensures ParseDecimal(Decimal(n)) == n
  {
    if n >= 10 {
      ParseDecimalOfDecimal(n / 10);
      var digits := Decimal(n);
      assert digits[..|digits| - 1] == Decimal(n / 10);
    }
  }

  /** The base-36 digits `Number.prototype.toString(36)` writes. */
  predicate IsBase36Digit(ch: char)
  {
    ('0' <= ch <= '9') || ('a' <= ch <= 'z')
  }

  /** `Math.random().toString(36)`: "0", or "0." followed by base-36 digits. */
  predicate IsRandomBase36(text: string)
  {
    || text == "0"
    || (|text| >= 2 && text[..2] == "0." && forall i :: 2 <= i < |text| ==> IsBase36Digit(text[i]))
  }

  /** `.substring(2, 8)` of the random text: at most six characters, and for
      a random number's text, base-36 digits only. */
  function RandomSuffix(randomText: string): (suffix: string)
    ensures |suffix| <= 6
    ensures |randomText| >= 8 ==> suffix == randomText[2..8]
    ensures 2 <= |randomText| <= 8 ==> suffix == randomText[2..]
    ensures |randomText| <= 2 ==> suffix == ""
    ensures IsRandomBase36(randomText) ==> forall i :: 0 <= i < |suffix| ==> IsBase36Digit(suffix[i])
  {
    Substring(randomText, 2, 8)
  }

  /** `originalFilename.split('.').pop()`: the text after the last dot, or
      the whole name when it has none. */
  function Extension(name: string): string
  {
    Last(Split(name, '.'))
  }

  /** `originalFilename.split('.').slice(0, -1).join('.')`: the text before
      the last dot, or "" when there is none. */
  function Stem(name: string): string
  {
    Join(DropLast(Split(name, '.')), '.')
  }

  /** The extension holds no dot; a name with a dot is its stem, a dot and
      its extension; a name without one has an empty stem and is its own
      extension. */
  lemma StemAndExtension(name: string)
    ensures '.' !in Extension(name)
    ensures '.' in name ==> name == Stem(name) + "." + Extension(name)
    ensures '.' !in name ==> Stem(name) == "" && Extension(name) == name
  {
    SplitAtLast(name, '.');
  }

  /** `generateUniqueFilename`: `{stem}_{timestamp}_{random}.{extension}`. */
  function UniqueFilename(original: string, now: nat, randomText: string): string
  {
    Stem(original) + "_" + Decimal(now) + "_" + RandomSuffix(randomText) + "." + Extension(original)
  }

  /** The unique name keeps the original extension, and its stem is the
      original stem followed by the timestamp and the random part. */
  lemma UniqueFilenameKeepsExtension(original: string, now: nat, randomText: string)
    ensures Extension(UniqueFilename(original, now, randomText)) == Extension(original)
    ensures Stem(UniqueFilename(original, now, randomText))
            == Stem(original) + "_" + Decimal(now) + "_" + RandomSuffix(randomText)
  {
    StemAndExtension(original);
    var front := Stem(original) + "_" + Decimal(now) + "_" + RandomSuffix(randomText);
    assert UniqueFilename(original, now, randomText) == front + ['.'] + Extension(original);
    SplitLastPiece(front, Extension(original), '.');
  }

  /** A name without a dot becomes the extension of a name with an empty
      stem: "photo" turns into "_{timestamp}_{random}.photo". */
  lemma UniqueFilenameWithoutDot(original: string, now: nat, randomText: string)
    requires '.' !in original
    ensures UniqueFilename(original, now, randomText)
            == "_" + Decimal(now) + "_" + RandomSuffix(randomText) + "." + original
  {
    StemAndExtension(original);
  }

  /** In a digit string followed by an underscore, the first underscore
      comes right after the digits. */
  lemma UnderscoreAfterDigits(d: string, r: string)
    requires forall i :: 0 <= i < |d| ==> '0' <= d[i] <= '9'
    ensures forall i :: 0 <= i < |d| ==> (d + "_" + r)[i] != '_'
    ensures (d + "_" + r)[|d|] == '_'
  {
  }

  /** Two texts that start with digit strings, each followed by an
      underscore, can only be equal when the digit strings are. */
  lemma DigitsBeforeUnderscore(d1: string, r1: string, d2: string, r2: string)
    requires forall i :: 0 <= i < |d1| ==> '0' <= d1[i] <= '9'
    requires forall i :: 0 <= i < |d2| ==> '0' <= d2[i] <= '9'
    requires d1 + "_" + r1 == d2 + "_" + r2
    ensures d1 == d2
  {
    UnderscoreAfterDigits(d1, r1);
    UnderscoreAfterDigits(d2, r2);
    var t := d1 + "_" + r1;
    assert |d1| == |d2|;
    assert d1 == t[..|d1|];
    assert d2 == (d2 + "_" + r2)[..|d2|];
  }

  /** Equal stems built from the same original stem mean equal timestamps. */
  lemma TimestampFromStem(stem: string, now1: nat, now2: nat, r1: string, r2: string)
    requires stem + "_" + Decimal(now1) + "_" + r1 == stem + "_" + Decimal(now2) + "_" + r2
    ensures now1 == now2
  {
    var s := stem + "_";
    var d1, d2 := Decimal(now1), Decimal(now2);
    AppendFour(s, d1, "_", r1);
    AppendFour(s, d2, "_", r2);
    CancelPrefix(s, d1 + "_" + r1, d2 + "_" + r2);
    DigitsBeforeUnderscore(d1, r1, d2, r2);
    ParseDecimalOfDecimal(now1);
    ParseDecimalOfDecimal(now2);
  }

  lemma AppendFour<T>(a: seq<T>, b: seq<T>, c: seq<T>, d: seq<T>)
    ensures a + b + c + d == a + (b + c + d)
  {
  }

  lemma CancelPrefix<T>(s: seq<T>, t1: seq<T>, t2: seq<T>)
    requires s + t1 == s + t2
    ensures t1 == t2
  {
    assert t1 == (s + t1)[|s|..];
    assert t2 == (s + t2)[|s|..];
  }

  /** Two uploads of the same file at different milliseconds get different
      names, whatever the random parts: equal names mean equal timestamps. */
  lemma UniqueFilenameSeparatesTimes(original: string, now1: nat, now2: nat, random1: string, random2: string)
    requires UniqueFilename(original, now1, random1) == UniqueFilename(original, now2, random2)
    ensures now1 == now2
  {
    UniqueFilenameKeepsExtension(original, now1, random1);
    UniqueFilenameKeepsExtension(original, now2, random2);
    TimestampFromStem(Stem(original), now1, now2, RandomSuffix(random1), RandomSuffix(random2));
  }
}
