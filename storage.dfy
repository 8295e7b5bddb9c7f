/** Upload helpers: MIME and size checks, file-name sanitising and prefixing,
    and the `H:MM:SS` / `M:SS` duration text. */
module Storage {
  import opened Wrappers
  import opened Strings
  import opened Decimal

  /** What the helpers read of a browser `File`. */
  datatype FileInfo = FileInfo(name: string, mime: string, size: nat)

  /** A `formData.get(key)` lookup: no entry, a text value, or an uploaded file. */
  datatype FormEntry = Absent | Text(value: string) | Upload(file: FileInfo)
  {
    /** JavaScript truthiness of the value: a file is always truthy, a text
        value unless it is empty. */
    predicate Present()
    {
      Upload? || (Text? && value != "")
    }
  }

  const MiB: nat := 1024 * 1024

  // ---------------------------------------------------------------------------
  // validateFileType

  /** One allow-list entry tested against a MIME type: an entry containing `*`
      admits every MIME that starts with the text before its first `/`;
      any other entry admits only itself. */
  predicate EntryAdmits(mime: string, entry: string)
  {
    if Contains(entry, "*") then StartsWith(mime, Split(entry, '/')[0])
    else mime == entry
  }

  /** `allowedTypes.some(...)`. */
  function ValidateFileType(file: FileInfo, allowed: seq<string>): (ok: bool)
    ensures ok <==> exists k :: 0 <= k < |allowed| && EntryAdmits(file.mime, allowed[k])
  {
    if allowed == [] then false
    else if EntryAdmits(file.mime, allowed[0]) then true
    else
      var rest := ValidateFileType(file, allowed[1..]);
      assert forall k :: 1 <= k < |allowed| ==> allowed[k] == allowed[1..][k - 1];
      rest
  }

  lemma NoStarNoWildcard(s: string)
    requires '*' !in s
    ensures !Contains(s, "*")
  {
    forall i: nat | i <= |s|
      ensures !OccursAt(s, "*", i)
    {
      if i + 1 <= |s| {
        assert s[i..i + 1][0] == s[i];
      }
    }
  }

  /** An entry without `*` admits exactly the MIME type equal to it. */
  lemma ExactEntry(mime: string, entry: string)
    requires '*' !in entry
    ensures EntryAdmits(mime, entry) <==> mime == entry
  {
    NoStarNoWildcard(entry);
  }

  // A wildcard entry such as "image/" + "*" admits exactly the MIME types that
  // start with the text before the slash, "image", so "imagery/x" passes too:
  // the slash is not part of the test.
  lemma WildcardEntry(mime: string, base: string)
    requires '/' !in base
    ensures EntryAdmits(mime, base + "/*") <==> StartsWith(mime, base)
  {
    var entry := base + "/*";
    assert entry[|base| + 1..|base| + 2] == "*";
    assert OccursAt(entry, "*", |base| + 1);
    assert entry == base + ['/'] + "*";
    SplitAtFirstSeparator(base, '/', "*");
  }

  lemma ImageWildcardAdmitsImagery()
    ensures EntryAdmits("imagery/x", "image/*")
  {
    assert "image" + "/*" == "image/*";
    WildcardEntry("imagery/x", "image");
    assert "imagery/x"[..5] == "image";
  }

  // ---------------------------------------------------------------------------
  // validateFileSize

  function ValidateFileSize(file: FileInfo, maxSizeMB: nat): (ok: bool)
  {
    file.size <= maxSizeMB * MiB
  }

  /** The ceiling is inclusive: a file of exactly `maxSizeMB` MiB passes and one
      byte more fails; a larger ceiling admits everything a smaller one does. */
  lemma FileSizeBoundary(f: FileInfo, maxSizeMB: nat, larger: nat)
    requires maxSizeMB <= larger
    ensures ValidateFileSize(f.(size := maxSizeMB * MiB), maxSizeMB)
    ensures !ValidateFileSize(f.(size := maxSizeMB * MiB + 1), maxSizeMB)
    ensures ValidateFileSize(f, maxSizeMB) ==> ValidateFileSize(f, larger)
  {
    assert maxSizeMB * MiB <= larger * MiB;
  }

  // ---------------------------------------------------------------------------
  // generateUniqueFilename

  /** The characters `[a-zA-Z0-9.-]` that the sanitiser keeps. */
  predicate IsNameChar(c: char)
  {
    IsUpper(c) || IsLower(c) || IsDigit(c) || c == '.' || c == '-'
  }

  /** `originalName.replace(/[^a-zA-Z0-9.-]/g, "_")`. */
  function Sanitize(name: string): (clean: string)
    ensures |clean| == |name|
  {
    seq(|name|, i requires 0 <= i < |name| => if IsNameChar(name[i]) then name[i] else '_')
  }

  /** Each character is kept if it is in `[a-zA-Z0-9.-]` and replaced by `_`
      otherwise, so the result is drawn from `[a-zA-Z0-9._-]`. */
  lemma SanitizeCharwise(name: string)
    ensures forall i :: 0 <= i < |name| ==>
      (IsNameChar(name[i]) ==> Sanitize(name)[i] == name[i]) &&
      (!IsNameChar(name[i]) ==> Sanitize(name)[i] == '_')
    ensures forall i :: 0 <= i < |name| ==> IsNameChar(Sanitize(name)[i]) || Sanitize(name)[i] == '_'
  {
  }

  /** A name made only of kept characters is left alone, so sanitising twice
      is the same as sanitising once. */
  lemma SanitizeIdempotent(name: string)
    ensures (forall i :: 0 <= i < |name| ==> IsNameChar(name[i])) ==> Sanitize(name) == name
    ensures Sanitize(Sanitize(name)) == Sanitize(name)
  {
  }

  /** `generateUniqueFilename(originalName, prefix)` at time `now` (the value
      of `Date.now()`); an absent or empty prefix is left out. */
  function UniqueFilename(originalName: string, prefix: Option<string>, now: nat): (r: string)
  {
    var stamped := NatToString(now) + "_" + Sanitize(originalName);
    if Truthy(prefix) then prefix.value + "_" + stamped else stamped
  }

  /** The prefix and `_` go in front of the unprefixed name; an empty or absent
      prefix changes nothing. */
  lemma UniqueFilenamePrefix(originalName: string, prefix: Option<string>, now: nat)
    ensures Truthy(prefix) ==> UniqueFilename(originalName, prefix, now)
                               == prefix.value + "_" + UniqueFilename(originalName, None, now)
    ensures !Truthy(prefix) ==> UniqueFilename(originalName, prefix, now) == UniqueFilename(originalName, None, now)
  {
  }

  /** Reading an unprefixed name back: the text before the first `_` is the
      timestamp, and what follows is the sanitised original name. */
  function SplitStamp(filename: string): (r: Option<(nat, string)>)
  {
    var parts := Split(filename, '_');
    if |parts| >= 2 && parts[0] != [] && AllDigits(parts[0])
    then Some((ParseNat(parts[0]), Join(parts[1..], '_')))
    else None
  }

  lemma {:induction false} JoinAfterFirst(a: string, b: string)
    requires '_' !in a
    ensures Split(a + "_" + b, '_') == [a] + Split(b, '_')
    ensures Join(Split(b, '_'), '_') == b
  {
    SplitAtFirstSeparator(a, '_', b);
    JoinSplit(b, '_');
  }

  lemma DigitsExclude(s: string, c: char)
    requires AllDigits(s) && !IsDigit(c)
    ensures c !in s
  {
  }

  lemma UniqueFilenameRoundTrip(originalName: string, now: nat)
    ensures SplitStamp(UniqueFilename(originalName, None, now)) == Some((now, Sanitize(originalName)))
  {
    var t := NatToString(now);
    DigitsExclude(t, '_');
    JoinAfterFirst(t, Sanitize(originalName));
    ParseNatToString(now);
    var parts := Split(t + "_" + Sanitize(originalName), '_');
    assert parts[1..] == Split(Sanitize(originalName), '_');
  }

  // ---------------------------------------------------------------------------
  // formatDuration

  function Hours(seconds: nat): nat { seconds / 3600 }
  function Minutes(seconds: nat): nat { seconds % 3600 / 60 }
  function Secs(seconds: nat): nat { seconds % 60 }

  /** The three fields recombine to the input and the lower two stay below 60. */
  lemma DurationFields(seconds: nat)
    ensures Hours(seconds) * 3600 + Minutes(seconds) * 60 + Secs(seconds) == seconds
    ensures Minutes(seconds) < 60 && Secs(seconds) < 60
    ensures Hours(seconds) > 0 <==> seconds >= 3600
  {
    assert seconds % 3600 % 60 == seconds % 60;
  }

  /** `formatDuration(seconds)` for a whole, non-negative number of seconds. */
  function FormatDuration(seconds: nat): (r: string)
  {
    var secs := PadStart2(NatToString(Secs(seconds)));
    if Hours(seconds) > 0
    then NatToString(Hours(seconds)) + ":" + PadStart2(NatToString(Minutes(seconds))) + ":" + secs
    else NatToString(Minutes(seconds)) + ":" + secs
  }

  /** Reading a duration text back: colon-separated digit groups, hours first when there
      are three. */
  function ParseDuration(text: string): (r: Option<nat>)
  {
    ParseFields(Split(text, ':'))
  }

  function ParseFields(fields: seq<string>): Option<nat>
  {
    if |fields| == 3 && AllDigits(fields[0]) && AllDigits(fields[1]) && AllDigits(fields[2])
    then Some(ParseNat(fields[0]) * 3600 + ParseNat(fields[1]) * 60 + ParseNat(fields[2]))
    else if |fields| == 2 && AllDigits(fields[0]) && AllDigits(fields[1])
    then Some(ParseNat(fields[0]) * 60 + ParseNat(fields[1]))
    else None
  }

  lemma SplitThree(a: string, b: string, c: string)
    requires AllDigits(a) && AllDigits(b) && AllDigits(c)
    ensures Split(a + ":" + b + ":" + c, ':') == [a, b, c]
    ensures ParseDuration(a + ":" + b + ":" + c) == ParseFields([a, b, c])
  {
    DigitsExclude(a, ':');
    DigitsExclude(b, ':');
    DigitsExclude(c, ':');
    SplitAtFirstSeparator(a, ':', b + ":" + c);
    assert a + ":" + b + ":" + c == a + [':'] + (b + ":" + c);
    SplitAtFirstSeparator(b, ':', c);
    SplitWithoutSeparator(c, ':');
  }

  lemma SplitTwo(a: string, b: string)
    requires AllDigits(a) && AllDigits(b)
    ensures Split(a + ":" + b, ':') == [a, b]
    ensures ParseDuration(a + ":" + b) == ParseFields([a, b])
  {
    DigitsExclude(a, ':');
    DigitsExclude(b, ':');
    SplitAtFirstSeparator(a, ':', b);
    SplitWithoutSeparator(b, ':');
  }

  /** The duration text shows hours iff the duration is at least an hour; it then has
      three colon-separated fields with two-digit minutes and seconds, and
      otherwise two fields with unpadded minutes and two-digit seconds. */
  lemma FormatDurationShape(seconds: nat)
    ensures var parts := Split(FormatDuration(seconds), ':');
      && (|parts| == 3 <==> seconds >= 3600)
      && (|parts| == 2 <==> seconds < 3600)
      && |parts[|parts| - 1]| == 2
      && (seconds >= 3600 ==> |parts[1]| == 2)
      && (seconds < 3600 ==> parts[0] == NatToString(Minutes(seconds)))
  {
    DurationFields(seconds);
    var secs := PadStart2(NatToString(Secs(seconds)));
    PaddedBelowHundred(Secs(seconds));
    if Hours(seconds) > 0 {
      PaddedBelowHundred(Minutes(seconds));
      SplitThree(NatToString(Hours(seconds)), PadStart2(NatToString(Minutes(seconds))), secs);
    } else {
      SplitTwo(NatToString(Minutes(seconds)), secs);
    }
  }

  lemma FieldsThree(a: string, b: string, c: string)
    requires AllDigits(a) && AllDigits(b) && AllDigits(c)
    ensures ParseFields([a, b, c]) == Some(ParseNat(a) * 3600 + ParseNat(b) * 60 + ParseNat(c))
  {
    var f := [a, b, c];
    assert |f| == 3 && f[0] == a && f[1] == b && f[2] == c;
  }

  lemma FieldsTwo(a: string, b: string)
    requires AllDigits(a) && AllDigits(b)
    ensures ParseFields([a, b]) == Some(ParseNat(a) * 60 + ParseNat(b))
  {
    var f := [a, b];
    assert |f| == 2 && f[0] == a && f[1] == b;
  }

  lemma ParseGroups3(a: string, b: string, c: string, h: nat, m: nat, sec: nat)
    requires AllDigits(a) && AllDigits(b) && AllDigits(c)
    requires ParseNat(a) == h && ParseNat(b) == m && ParseNat(c) == sec
    ensures ParseDuration(a + ":" + b + ":" + c) == Some(h * 3600 + m * 60 + sec)
  {
    SplitThree(a, b, c);
    FieldsThree(a, b, c);
  }

  lemma ParseGroups2(a: string, b: string, m: nat, sec: nat)
    requires AllDigits(a) && AllDigits(b)
    requires ParseNat(a) == m && ParseNat(b) == sec
    ensures ParseDuration(a + ":" + b) == Some(m * 60 + sec)
  {
    SplitTwo(a, b);
    FieldsTwo(a, b);
  }

  lemma ParseHMS(h: nat, m: nat, sec: nat)
    requires m < 60 && sec < 60
    ensures ParseDuration(NatToString(h) + ":" + PadStart2(NatToString(m)) + ":" + PadStart2(NatToString(sec)))
            == Some(h * 3600 + m * 60 + sec)
  {
    var hs, ms, ss := NatToString(h), PadStart2(NatToString(m)), PadStart2(NatToString(sec));
    PaddedBelowHundred(m);
    PaddedBelowHundred(sec);
    ParseNatToString(h);
    ParseGroups3(hs, ms, ss, h, m, sec);
  }

  lemma ParseMS(m: nat, sec: nat)
    requires sec < 60
    ensures ParseDuration(NatToString(m) + ":" + PadStart2(NatToString(sec))) == Some(m * 60 + sec)
  {
    var ms, ss := NatToString(m), PadStart2(NatToString(sec));
    PaddedBelowHundred(sec);
    ParseNatToString(m);
    ParseGroups2(ms, ss, m, sec);
  }

  /** The text determines the duration: parsing it gives the seconds back. */
  lemma FormatDurationRoundTrip(seconds: nat)
    ensures ParseDuration(FormatDuration(seconds)) == Some(seconds)
  {
    DurationFields(seconds);
    if Hours(seconds) > 0 {
      ParseHMS(Hours(seconds), Minutes(seconds), Secs(seconds));
    } else {
      ParseMS(Minutes(seconds), Secs(seconds));
    }
  }
}
