/** Client-side checks on a chosen file before anything is sent, and the two
    filename/size helpers that sit beside them. */
module FileValidator {
  import opened Wrappers
  import opened Numbers
  import opened Text
  import opened Types

  const MiB: nat := 1024 * 1024
  const MaxSize: nat := 50 * MiB

  const AllowedTypes: seq<string> := [
    "audio/mpeg", "audio/wav", "audio/mp3", "audio/m4a", "audio/ogg", "audio/flac", "audio/aac"
  ]

  const AllowedExtensions: seq<string> := [".mp3", ".wav", ".m4a", ".ogg", ".flac", ".aac"]

  const FormatError: string := "Please upload a valid audio file (MP3, WAV, M4A, OGG, FLAC, AAC)"

  /** The oversize message: the limit in whole MB and the file's size in MB
      with two decimals. */
  function SizeError(size: nat): string {
    "File size must be less than " + Decimal(MaxSize / MiB) + "MB. Current size: "
    + FixedTwo(size, MiB) + "MB"
  }

  predicate HasValidMimeType(mimeType: string) {
    mimeType in AllowedTypes
  }

  /** `suffixes.some(ext => s.endsWith(ext))`. */
  function AnyEndsWith(s: string, suffixes: seq<string>): (b: bool)
    ensures b <==> exists e :: e in suffixes && EndsWith(s, e)
  {
    if suffixes == [] then false
    else EndsWith(s, suffixes[0]) || AnyEndsWith(s, suffixes[1..])
  }

  predicate HasValidExtension(name: string) {
    AnyEndsWith(ToLower(name), AllowedExtensions)
  }

  /** validateAudioFile: the size check first, then the MIME allow-list or,
      failing that, the extension allow-list. */
  function ValidateAudioFile(file: AudioFile): (r: FileValidationResult)
    ensures r.isValid <==> r.error.None?
    ensures r.error.Some? ==> r.error.value != ""
    ensures file.size > MaxSize ==> r.error == Some(SizeError(file.size))
    ensures file.size <= MaxSize ==>
      (r.isValid <==>
        file.mimeType in AllowedTypes
        || exists e :: e in AllowedExtensions && EndsWith(ToLower(file.name), e))
    ensures file.size <= MaxSize && !r.isValid ==> r.error == Some(FormatError)
  {
    if file.size > MaxSize then
      FileValidationResult(false, Some(SizeError(file.size)))
    else if !HasValidMimeType(file.mimeType) && !HasValidExtension(file.name) then
      FileValidationResult(false, Some(FormatError))
    else
      FileValidationResult(true, None)
  }

  /** The size check comes first: a file one byte over the limit is refused
      with the size message even when its type and name are both allowed. */
  lemma OversizeWinsOverFormat(file: AudioFile)
    requires file.size > MaxSize
    requires HasValidMimeType(file.mimeType) && HasValidExtension(file.name)
    ensures !ValidateAudioFile(file).isValid
    ensures ValidateAudioFile(file).error == Some(SizeError(file.size))
  {
  }

  /** The bound is strict: exactly 50 MiB passes the size check. */
  lemma ExactlyMaxSizeAccepted(name: string, mimeType: string)
    requires HasValidMimeType(mimeType) || HasValidExtension(name)
    ensures ValidateAudioFile(AudioFile(name, MaxSize, mimeType)).isValid
    ensures !ValidateAudioFile(AudioFile(name, MaxSize + 1, mimeType)).isValid
  {
  }

  /** Only the case-folded name matters, so names differing in ASCII case get
      the same verdict. */
  lemma ExtensionCheckIgnoresCase(f: AudioFile, g: AudioFile)
    requires f.size == g.size && f.mimeType == g.mimeType
    requires ToLower(f.name) == ToLower(g.name)
    ensures ValidateAudioFile(f) == ValidateAudioFile(g)
  {
  }

  /** "SONG.WAV" is accepted on its extension alone, whatever its MIME type. */
  lemma UpperCaseWavAccepted(size: nat, mimeType: string)
    requires size <= MaxSize
    ensures ValidateAudioFile(AudioFile("SONG.WAV", size, mimeType)).isValid
  {
    assert ToLower("SONG.WAV") == "song.wav";
    assert EndsWith("song.wav", AllowedExtensions[1]);
  }

  /** The size message reports the limit as "50" and the size as a numeral
      with two decimals whose value is size / 2^20 rounded to the hundredth. */
  lemma SizeErrorReportsSize(size: nat)
    ensures var digits := FixedTwo(size, MiB);
      && SizeError(size) == "File size must be less than 50MB. Current size: " + digits + "MB"
      && |digits| >= 4 && digits[|digits| - 3] == '.'
      && AllDigits(digits[..|digits| - 3]) && AllDigits(digits[|digits| - 2..])
      && 100 * ParseDecimal(digits[..|digits| - 3]) + ParseDecimal(digits[|digits| - 2..])
         == RoundHalfUp(100 * size, MiB)
  {
    assert MaxSize / MiB == 50;
    assert Decimal(50) == "50";
  }

  // formatFileSize

  const SizeUnits: seq<string> := ["Bytes", "KB", "MB", "GB"]

  /** `sizes[i]`, which is `undefined` past the last unit. */
  function UnitLabel(i: nat): string {
    if i < |SizeUnits| then SizeUnits[i] else "undefined"
  }

  /** formatFileSize: "0 Bytes" for zero; otherwise the value in the largest
      unit 1024^i not above it, rounded to two decimals with trailing zeros
      dropped, then the unit's name. */
  function FormatFileSize(bytes: nat): (r: string)
    ensures bytes > 0 ==> exists i: nat ::
      && Pow(1024, i) <= bytes < Pow(1024, i + 1)
      && r == ShortHundredths(RoundHalfUp(100 * bytes, Pow(1024, i))) + " " + UnitLabel(i)
  {
    if bytes == 0 then "0 Bytes"
    else
      var i := FloorLog(1024, bytes);
      ShortHundredths(RoundHalfUp(100 * bytes, Pow(1024, i))) + " " + UnitLabel(i)
  }

  /** The unit is chosen by powers of 1024: Bytes below 1 KB, KB below 1 MB,
      MB below 1 GB, GB below 1 TB. */
  lemma FileSizeUnitByPowers(bytes: nat, i: nat)
    requires i < |SizeUnits|
    requires Pow(1024, i) <= bytes < Pow(1024, i + 1)
    ensures FormatFileSize(bytes)
      == ShortHundredths(RoundHalfUp(100 * bytes, Pow(1024, i))) + " " + SizeUnits[i]
  {
    FloorLogUnique(1024, bytes, i);
  }

  /** Worked values: zero is "0 Bytes" and 1536 bytes is "1.5 KB". */
  lemma FormatFileSizeKilobytes()
    ensures FormatFileSize(0) == "0 Bytes"
    ensures FormatFileSize(1536) == "1.5 KB"
  {
    assert Pow(1024, 1) == 1024;
    assert Pow(1024, 2) == 1048576;
    FileSizeUnitByPowers(1536, 1);
    RoundHalfUpUnique(153600, 1024, 150);
    OneAndAHalf();
  }

  /** 150 hundredths prints as "1.5": the trailing zero is dropped. */
  lemma OneAndAHalf()
    ensures ShortHundredths(150) == "1.5"
  {
    assert Decimal(1) == "1";
    assert DigitChar(5) == '5';
  }

  /** Worked value: 1 MiB is "1 MB", the bare whole number. */
  lemma FormatFileSizeOneMegabyte()
    ensures FormatFileSize(1048576) == "1 MB"
  {
    assert Pow(1024, 2) == 1048576;
    assert Pow(1024, 3) == 1073741824;
    FileSizeUnitByPowers(1048576, 2);
    RoundHalfUpUnique(104857600, 1048576, 100);
    assert Decimal(1) == "1";
    assert ShortHundredths(100) == "1";
  }

  /** Worked value past the last unit: 2^50 - 1 bytes is just below 1024^5,
      so the exact logarithm picks 1024^4 and prints "1024 undefined". */
  lemma FormatFileSizeJustBelowPebibyte()
    ensures FormatFileSize(1125899906842623) == "1024 undefined"
  {
    assert Pow(1024, 4) == 1099511627776;
    assert Pow(1024, 5) == 1125899906842624;
    FloorLogUnique(1024, 1125899906842623, 4);
    RoundHalfUpUnique(100 * 1125899906842623, 1099511627776, 102400);
    assert UnitLabel(4) == "undefined";
    WholeThousandTwentyFour();
  }

  /** 1024 whole units print as the bare numeral "1024". */
  lemma WholeThousandTwentyFour()
    ensures ShortHundredths(102400) == "1024"
  {
    assert Decimal(1) == "1";
    assert Decimal(10) == "10";
    assert Decimal(102) == "102";
    assert Decimal(1024) == "1024";
  }

  // getFileExtension

  const Uint32Modulus: int := 0x1_0000_0000

  /** `filename.slice((filename.lastIndexOf(".") - 1 >>> 0) + 2)`: `>>> 0`
      reduces modulo 2^32, so a missing dot (-1) and a leading dot (0) both
      push the start past 2^32; `slice` past the end gives "". */
  function GetFileExtension(filename: string): (r: string)
    ensures |r| <= |filename| && r == filename[|filename| - |r|..]
  {
    var start := (LastIndexOf(filename, '.') - 1) % Uint32Modulus + 2;
    if start <= |filename| then filename[start..] else ""
  }

  /** No dot after the first character: no extension. */
  lemma NoDotNoExtension(filename: string)
    requires |filename| <= Uint32Modulus
    requires forall i :: 0 < i < |filename| ==> filename[i] != '.'
    ensures GetFileExtension(filename) == ""
  {
  }

  /** With a last dot at position i >= 1 the extension is everything after it
      (empty for a trailing dot), and never contains a dot. */
  lemma ExtensionAfterLastDot(filename: string, i: nat)
    requires |filename| <= Uint32Modulus
    requires 0 < i < |filename| && filename[i] == '.'
    requires forall j :: i < j < |filename| ==> filename[j] != '.'
    ensures GetFileExtension(filename) == filename[i + 1..]
    ensures forall j :: 0 <= j < |GetFileExtension(filename)| ==> GetFileExtension(filename)[j] != '.'
  {
    var idx := LastIndexOf(filename, '.');
    assert idx == i by {
      assert idx >= i;
      assert filename[idx] == '.';
    }
    assert (idx - 1) % Uint32Modulus == i - 1;
    var r := GetFileExtension(filename);
    assert r == filename[i + 1..];
  }

  /** The 2^32 wrap only gives "" while the name is at most 2^32 characters:
      a longer dot-free name yields its tail from index 2^32. */
  lemma LongDotFreeNameWraps(filename: string)
    requires |filename| > Uint32Modulus
    requires forall j :: 0 <= j < |filename| ==> filename[j] != '.'
    ensures GetFileExtension(filename) == filename[Uint32Modulus..] != ""
  {
  }
}
