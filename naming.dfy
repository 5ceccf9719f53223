/**
  How the recorder names the file of a segment: the output directory, the
  fixed stem `audio_segment_`, the segment index in decimal zero-padded to at
  least four digits (Python's `{k:04d}`), and the audio format's extension.
  The directory is joined with a forward slash, as `os.path.join` does on
  POSIX systems.
 */
module SegmentNaming {

  const OutputDir: string := "recordings"
  const AudioFormat: string := "wav"
  const Stem: string := "audio_segment_"
  /** Minimum width of the index field of a segment file name. */
  const IndexWidth: nat := 4

  /** Everything in front of the index: `recordings/audio_segment_`. */
  const NamePrefix: string := OutputDir + "/" + Stem
  /** Everything after the index: `.wav`. */
  const NameSuffix: string := "." + AudioFormat

  predicate IsDigit(c: char) {
    '0' <= c <= '9'
  }

  predicate AllDigits(s: string) {
    forall i :: 0 <= i < |s| ==> IsDigit(s[i])
  }

  function DigitValue(c: char): (d: nat)
    requires IsDigit(c)
    ensures d < 10
  {
    c as int - '0' as int
  }

  function DigitChar(d: nat): (c: char)
    requires d < 10
    ensures IsDigit(c) && DigitValue(c) == d
  {
    ('0' as int + d) as char
  }

  function Pow10(e: nat): (p: nat)
    ensures p >= 1
  {
    if e == 0 then 1 else 10 * Pow10(e - 1)
  }

  lemma {:induction false} Pow10Monotone(a: nat, b: nat)
    requires a <= b
    ensures Pow10(a) <= Pow10(b)
    decreases b
  {
    if a < b {
      Pow10Monotone(a, b - 1);
    }
  }

  /** The number a string of decimal digits denotes, most significant digit first. */
  function Value(s: string): nat
    requires AllDigits(s)
  {
    if s == [] then 0 else 10 * Value(s[..|s| - 1]) + DigitValue(s[|s| - 1])
  }

  /** The decimal numeral of `n` as Python writes it: one or more digits. */
  function Digits(n: nat): string
    decreases n
  {
    if n < 10 then [DigitChar(n)] else Digits(n / 10) + [DigitChar(n % 10)]
  }

  /** The numeral of `n` is a non-empty string of decimal digits. */
  lemma {:induction false} DigitsWellFormed(n: nat)
    ensures 1 <= |Digits(n)| && AllDigits(Digits(n))
    decreases n
  {
    if n >= 10 {
      DigitsWellFormed(n / 10);
    }
  }

  /** The numeral of `n` has no leading zero: it starts with `0` only when `n` is 0. */
  lemma {:induction false} DigitsLeadingDigit(n: nat)
    ensures 1 <= |Digits(n)|
    ensures Digits(n)[0] == '0' <==> n == 0
    decreases n
  {
    if n >= 10 {
      DigitsLeadingDigit(n / 10);
    }
  }

  /** The numeral of `n` has exactly as many digits as the magnitude of `n` needs. */
  lemma {:induction false} DigitsLength(n: nat)
    ensures n < Pow10(|Digits(n)|)
    ensures |Digits(n)| > 1 ==> Pow10(|Digits(n)| - 1) <= n
    decreases n
  {
    if n >= 10 {
      DigitsLength(n / 10);
    }
  }

  /** `count` copies of the padding character `0`. */
  function Zeros(count: nat): string {
    seq(count, _ => '0')
  }

  /**
    The index field of a segment file name, `{k:04d}`: the numeral of `k`
    with zeros in front up to a width of four; a wider numeral is kept whole.
   */
  function Pad4(k: nat): string {
    var d := Digits(k);
    if |d| >= IndexWidth then d else Zeros(IndexWidth - |d|) + d
  }

  /**
    The field is four wide, or as wide as the numeral of `k` when that is
    longer. Padding never truncates: the field ends with the whole numeral,
    and only zeros precede it.
   */
  lemma Pad4Shape(k: nat)
    ensures |Pad4(k)| == if |Digits(k)| < IndexWidth then IndexWidth else |Digits(k)|
    ensures var r := Pad4(k);
      r[|r| - |Digits(k)|..] == Digits(k)
      && forall i :: 0 <= i < |r| - |Digits(k)| ==> r[i] == '0'
  {
  }

  /** The index field is a string of decimal digits. */
  lemma Pad4AllDigits(k: nat)
    ensures AllDigits(Pad4(k))
  {
    DigitsWellFormed(k);
  }

  /** The index field is exactly four wide for indices below 10000, and wider from then on. */
  lemma Pad4Width(k: nat)
    ensures |Pad4(k)| == IndexWidth <==> k < Pow10(IndexWidth)
  {
    var d := Digits(k);
    DigitsLength(k);
    DigitsWellFormed(k);
    if |d| > IndexWidth {
      Pow10Monotone(IndexWidth, |d| - 1);
    } else {
      Pow10Monotone(|d|, IndexWidth);
    }
  }

  /** The file a segment with index `k` is recorded to. */
  function SegmentFilename(k: nat): string {
    NamePrefix + Pad4(k) + NameSuffix
  }

  /** The numeral of `n` reads back as `n`. */
  lemma {:induction false} ValueDigits(n: nat)
    ensures AllDigits(Digits(n)) && Value(Digits(n)) == n
    decreases n
  {
    DigitsWellFormed(n);
    if n >= 10 {
      var d := Digits(n);
      assert d[..|d| - 1] == Digits(n / 10);
      ValueDigits(n / 10);
    }
  }

  /** Leading zeros do not change the number a numeral denotes. */
  lemma {:induction false} ValueZeros(count: nat, s: string)
    requires AllDigits(s)
    ensures AllDigits(Zeros(count) + s) && Value(Zeros(count) + s) == Value(s)
    decreases |s|, count
  {
    var t := Zeros(count) + s;
    if s == [] {
      assert t == Zeros(count);
      if count > 0 {
        assert t[..|t| - 1] == Zeros(count - 1);
        ValueZeros(count - 1, []);
        assert Zeros(count - 1) + [] == Zeros(count - 1);
      }
    } else {
      var init := s[..|s| - 1];
      assert t[..|t| - 1] == Zeros(count) + init;
      ValueZeros(count, init);
    }
  }

  /** The padded index field reads back as the index: padding never loses digits. */
  lemma Pad4Value(k: nat)
    ensures AllDigits(Pad4(k)) && Value(Pad4(k)) == k
  {
    var d := Digits(k);
    ValueDigits(k);
    if |d| < IndexWidth {
      ValueZeros(IndexWidth - |d|, d);
    }
  }

  /** Distinct indices get distinct index fields. */
  lemma Pad4Injective(i: nat, j: nat)
    requires Pad4(i) == Pad4(j)
    ensures i == j
  {
    Pad4Value(i);
    Pad4Value(j);
  }

  /**
    A segment file name is the fixed prefix, then the padded index, then the
    extension; the index field can be cut back out of the name.
   */
  lemma SegmentFilenameParts(k: nat)
    ensures var name := SegmentFilename(k);
      |name| == |NamePrefix| + |Pad4(k)| + |NameSuffix|
      && name[..|NamePrefix|] == NamePrefix
      && name[|name| - |NameSuffix|..] == NameSuffix
      && name[|NamePrefix|..|name| - |NameSuffix|] == Pad4(k)
  {
  }

  /** Distinct segment indices are recorded to distinct files. */
  lemma SegmentFilenameInjective(i: nat, j: nat)
    requires SegmentFilename(i) == SegmentFilename(j)
    ensures i == j
  {
    SegmentFilenameParts(i);
    SegmentFilenameParts(j);
    assert |Pad4(i)| == |Pad4(j)|;
    Pad4Injective(i, j);
  }

  /** Names given to strictly increasing segment indices are pairwise distinct. */
  lemma NamesOfIncreasingSegmentsDistinct(names: seq<string>, segments: seq<nat>)
    requires |names| == |segments|
    requires forall a :: 0 <= a < |names| ==> names[a] == SegmentFilename(segments[a])
    requires forall a, b :: 0 <= a < b < |segments| ==> segments[a] < segments[b]
    ensures forall a, b :: 0 <= a < b < |names| ==> names[a] != names[b]
  {
    forall a, b | 0 <= a < b < |names|
      ensures names[a] != names[b]
    {
      if names[a] == names[b] {
        SegmentFilenameInjective(segments[a], segments[b]);
      }
    }
  }

  /** In a list of segment names, the name of segment `k` occurs exactly when `k` is one of the segments named. */
  lemma NameListedIffSegmentListed(names: seq<string>, segments: seq<nat>, k: nat)
    requires |names| == |segments|
    requires forall a :: 0 <= a < |names| ==> names[a] == SegmentFilename(segments[a])
    ensures SegmentFilename(k) in names <==> k in segments
  {
    if SegmentFilename(k) in names {
      var a :| 0 <= a < |names| && names[a] == SegmentFilename(k);
      SegmentFilenameInjective(segments[a], k);
    }
    if k in segments {
      var a :| 0 <= a < |segments| && segments[a] == k;
      assert names[a] == SegmentFilename(k);
    }
  }

  /** The names of the first two segments. */
  lemma FirstSegmentFilenames()
    ensures SegmentFilename(0) == "recordings/audio_segment_0000.wav"
    ensures SegmentFilename(1) == "recordings/audio_segment_0001.wav"
  {
    assert NamePrefix == "recordings/audio_segment_";
    assert NameSuffix == ".wav";
    assert Zeros(3) == "000";
    assert DigitChar(0) == '0';
    assert Digits(0) == "0";
    assert Pad4(0) == "0000";
    assert Digits(1) == "1";
    assert Pad4(1) == "0001";
  }

  /** The numeral of 12345, built digit by digit. */
  lemma Digits12345()
    ensures Digits(12345) == "12345"
  {
    assert DigitChar(1) == '1' && DigitChar(2) == '2' && DigitChar(3) == '3';
    assert DigitChar(4) == '4' && DigitChar(5) == '5';
    assert Digits(12) == Digits(1) + [DigitChar(2)] == "12";
    assert Digits(123) == Digits(12) + [DigitChar(3)] == "123";
    assert Digits(1234) == Digits(123) + [DigitChar(4)] == "1234";
    assert Digits(12345) == Digits(1234) + [DigitChar(5)];
  }

  /** An index of five digits is written whole, not cut to four. */
  lemma WideSegmentFilename()
    ensures SegmentFilename(12345) == "recordings/audio_segment_12345.wav"
  {
    assert NamePrefix == "recordings/audio_segment_";
    assert NameSuffix == ".wav";
    Digits12345();
    assert Pad4(12345) == "12345";
  }
}
