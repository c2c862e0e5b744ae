/** File names for exported artifacts. */
module ExportNames {
  import opened Common
  import opened Text

  predicate IsSafeChar(c: char) {
    'a' <= c <= 'z' || 'A' <= c <= 'Z' || '0' <= c <= '9' || c == '.' || c == '-' || c == '_'
  }

  predicate AllSafe(s: string) {
    forall i :: 0 <= i < |s| ==> IsSafeChar(s[i])
  }

  /** A name that stays inside its directory: no separator, not empty, not "." or "..". */
  predicate SafeName(name: string) {
    name != [] && name[0] != '.' && AllSafe(name)
  }

  predicate SafeExtension(extension: string) {
    extension != [] && AllSafe(extension) && forall i :: 0 <= i < |extension| ==> extension[i] != '.'
  }

  /** What follows the last slash or backslash. */
  function Leaf(input: string): string {
    var slash, back := LastIndexOf(input, '/'), LastIndexOf(input, '\\');
    input[(if slash >= back then slash else back) + 1..]
  }

  /** Unsafe characters become underscores. */
  function Mapped(s: string): (r: string)
    ensures |r| == |s| && AllSafe(r)
    ensures AllSafe(s) ==> r == s
  {
    seq(|s|, i requires 0 <= i < |s| => if IsSafeChar(s[i]) then s[i] else '_')
  }

  /** So do dots, in a fallback. */
  function MappedFallback(s: string): (r: string)
    ensures |r| == |s| && AllSafe(r)
    ensures forall i :: 0 <= i < |r| ==> r[i] != '.'
  {
    seq(|s|, i requires 0 <= i < |s| => if IsSafeChar(s[i]) && s[i] != '.' then s[i] else '_')
  }

  function TrimDotsStart(s: string): (r: string)
    ensures r != [] ==> r[0] != '.'
    ensures AllSafe(s) ==> AllSafe(r)
    ensures s != [] && s[0] != '.' ==> r == s
  {
    if s != [] && s[0] == '.' then TrimDotsStart(s[1..]) else s
  }

  function TrimDotsEnd(s: string): (r: string)
    ensures r != [] ==> r[|r| - 1] != '.' && s != [] && r[0] == s[0]
    ensures AllSafe(s) ==> AllSafe(r)
    ensures s != [] && s[|s| - 1] != '.' ==> r == s
  {
    if s != [] && s[|s| - 1] == '.' then TrimDotsEnd(s[..|s| - 1]) else s
  }

  /** A safe name that does not end in a dot. */
  predicate CleanName(name: string) {
    SafeName(name) && name[|name| - 1] != '.'
  }

  function TrimDots(s: string): (r: string)
    ensures AllSafe(s) && r != [] ==> CleanName(r)
    ensures CleanName(s) ==> r == s
  {
    TrimDotsEnd(TrimDotsStart(s))
  }

  function Stem(leaf: string, fallback: string): (r: string)
    ensures CleanName(r)
    ensures CleanName(leaf) ==> r == leaf
  {
    var trimmed := TrimDots(Mapped(leaf));
    if trimmed != [] then trimmed
    else if fallback != [] then MappedFallback(fallback)
    else "artifact"
  }

  function WithExtension(name: string, extension: string): string {
    if NameParts(name).1.None? then name + "." + extension else name
  }

  function SanitizeFileName(input: string, fallback: string, extension: string): string {
    WithExtension(Stem(if Leaf(input) == [] then fallback else Leaf(input), fallback), extension)
  }

  lemma WithExtensionIsClean(name: string, extension: string)
    requires CleanName(name) && SafeExtension(extension)
    ensures CleanName(WithExtension(name, extension)) && NameParts(WithExtension(name, extension)).1.Some?
  {
    if NameParts(name).1.None? { ExtensionOfJoined(name, extension); }
  }

  lemma SanitizedIsClean(input: string, fallback: string, extension: string)
    requires SafeExtension(extension)
    ensures var name := SanitizeFileName(input, fallback, extension); CleanName(name) && NameParts(name).1.Some?
  {
    WithExtensionIsClean(Stem(if Leaf(input) == [] then fallback else Leaf(input), fallback), extension);
  }

  lemma ExtensionOfJoined(name: string, extension: string)
    requires CleanName(name) && SafeExtension(extension)
    ensures NameParts(name + "." + extension) == (name, Some(extension))
    ensures CleanName(name + "." + extension)
  {
    var joined := name + "." + extension;
    var i := LastIndexOf(joined, '.');
    assert joined[|name|] == '.';
    assert forall j :: |name| < j < |joined| ==> joined[j] == extension[j - |name| - 1] != '.';
    assert i == |name|;
    assert joined[..i] == name && joined[i + 1..] == extension;
  }

  lemma LastIndexOfMissing(s: string, c: char)
    requires forall i :: 0 <= i < |s| ==> s[i] != c
    ensures LastIndexOf(s, c) == -1
  {
  }

  lemma LeafOfClean(name: string)
    requires CleanName(name)
    ensures Leaf(name) == name
  {
    assert !IsSafeChar('/') && !IsSafeChar('\\');
    LastIndexOfMissing(name, '/');
    LastIndexOfMissing(name, '\\');
  }

  /** Sanitizing is stable: a sanitized name comes back unchanged, whatever the fallback. */
  lemma SanitizeIsIdempotent(input: string, fallback: string, extension: string, fallback': string, extension': string)
    requires SafeExtension(extension) && SafeExtension(extension')
    ensures var name := SanitizeFileName(input, fallback, extension);
            SanitizeFileName(name, fallback', extension') == name
  {
    SanitizedIsClean(input, fallback, extension);
    LeafOfClean(SanitizeFileName(input, fallback, extension));
  }

  /** The leaf is what follows the last separator. */
  lemma LeafMeaning(dir: string, leaf: string)
    requires IsDirectory(dir) && '/' !in leaf && '\\' !in leaf
    ensures Leaf(dir + leaf) == leaf
  {
    var input := dir + leaf;
    assert forall i :: |dir| <= i < |input| ==> input[i] == leaf[i - |dir|];
    var slash, back := LastIndexOf(input, '/'), LastIndexOf(input, '\\');
    assert slash < |dir| && back < |dir|;
    assert dir != "" ==> input[|dir| - 1] == dir[|dir| - 1];
    assert input[|dir|..] == leaf;
  }

  /** A character kept in a name: a letter, a digit, a dot, a hyphen or an underscore. */
  predicate KeptChar(c: char) {
    'a' <= c <= 'z' || 'A' <= c <= 'Z' || '0' <= c <= '9' || c in ".-_"
  }

  predicate SanitizedFrom(name: string, leaf: string) {
    |name| == |leaf| && forall i :: 0 <= i < |leaf| ==> name[i] == if KeptChar(leaf[i]) then leaf[i] else '_'
  }

  lemma {:induction false} TrimDotsAround(before: string, s: string, after: string)
    requires forall i :: 0 <= i < |before| ==> before[i] == '.'
    requires forall i :: 0 <= i < |after| ==> after[i] == '.'
    requires s != "" && s[0] != '.' && s[|s| - 1] != '.'
    ensures TrimDots(before + (s + after)) == s
    decreases |before| + |after|
  {
    if before != "" {
      assert (before + (s + after))[1..] == before[1..] + (s + after);
      TrimDotsAround(before[1..], s, after);
    } else {
      assert before + (s + after) == s + after && TrimDotsStart(s + after) == s + after;
      TrimDotsAfter(s, after);
    }
  }

  lemma {:induction false} TrimDotsAfter(s: string, after: string)
    requires forall i :: 0 <= i < |after| ==> after[i] == '.'
    requires s != "" && s[|s| - 1] != '.'
    ensures TrimDotsEnd(s + after) == s
  {
    if after == "" {
      assert s + after == s;
    } else {
      assert (s + after)[..|s + after| - 1] == s + after[..|after| - 1];
      TrimDotsAfter(s, after[..|after| - 1]);
    }
  }

  lemma {:induction false} OnlyDots(dots: string)
    requires forall i :: 0 <= i < |dots| ==> dots[i] == '.'
    ensures TrimDots(dots) == ""
  {
    if dots != "" { OnlyDots(dots[1..]); }
  }

  lemma MappedAround(before: string, leaf: string, after: string)
    requires AllDots(before) && AllDots(after)
    ensures Mapped(before + (leaf + after)) == before + (Mapped(leaf) + after)
  {
    var whole, mapped := before + (leaf + after), before + (Mapped(leaf) + after);
    forall i | 0 <= i < |whole| ensures Mapped(whole)[i] == mapped[i] {
      if |before| <= i < |before| + |leaf| { assert whole[i] == leaf[i - |before|]; } else { assert whole[i] == '.'; }
    }
  }

  lemma MappedKeeps(leaf: string)
    ensures SanitizedFrom(Mapped(leaf), leaf)
  {
  }

  lemma NoSeparator(before: string, leaf: string, after: string)
    requires AllDots(before) && AllDots(after) && '/' !in leaf && '\\' !in leaf
    ensures var whole := before + (leaf + after); '/' !in whole && '\\' !in whole
  {
    var whole := before + (leaf + after);
    forall i | 0 <= i < |whole| ensures whole[i] != '/' && whole[i] != '\\' {
      if |before| <= i < |before| + |leaf| { assert whole[i] == leaf[i - |before|]; } else { assert whole[i] == '.'; }
    }
  }

  predicate AllDots(s: string) {
    forall i :: 0 <= i < |s| ==> s[i] == '.'
  }

  predicate IsDirectory(dir: string) {
    dir == "" || dir[|dir| - 1] == '/' || dir[|dir| - 1] == '\\'
  }

  /** What a name becomes: the directory and the dots around the leaf go, the other characters are kept or become
      underscores one by one, and an extension is added where there is none. */
  lemma SanitizedName(dir: string, before: string, leaf: string, after: string, fallback: string, extension: string)
    requires IsDirectory(dir) && AllDots(before) && AllDots(after)
    requires '/' !in leaf && '\\' !in leaf && leaf != "" && leaf[0] != '.' && leaf[|leaf| - 1] != '.'
    ensures SanitizedFrom(Mapped(leaf), leaf)
    ensures SanitizeFileName(dir + (before + (leaf + after)), fallback, extension) ==
            if NameParts(Mapped(leaf)).1.Some? then Mapped(leaf) else Mapped(leaf) + "." + extension
  {
    MappedKeeps(leaf);
    NoSeparator(before, leaf, after);
    SanitizedLeaf(dir, before + (leaf + after), fallback, extension);
    StemOfLeaf(before, leaf, after, fallback);
  }

  lemma StemOfLeaf(before: string, leaf: string, after: string, fallback: string)
    requires AllDots(before) && AllDots(after) && leaf != "" && leaf[0] != '.' && leaf[|leaf| - 1] != '.'
    ensures Stem(before + (leaf + after), fallback) == Mapped(leaf)
  {
    MappedKeeps(leaf);
    MappedAround(before, leaf, after);
    TrimDotsAround(before, Mapped(leaf), after);
  }

  lemma SanitizedLeaf(dir: string, leaf: string, fallback: string, extension: string)
    requires IsDirectory(dir) && '/' !in leaf && '\\' !in leaf && leaf != ""
    ensures SanitizeFileName(dir + leaf, fallback, extension) == WithExtension(Stem(leaf, fallback), extension)
  {
    LeafMeaning(dir, leaf);
  }

  lemma StemOfDots(dots: string, fallback: string)
    requires dots != "" && AllDots(dots)
    ensures Stem(dots, fallback) == if fallback == "" then "artifact" else MappedFallback(fallback)
  {
    assert Mapped(dots) == dots;
    OnlyDots(dots);
  }

  lemma FallbackHasNoDot(fallback: string)
    ensures '.' !in MappedFallback(fallback) && '.' !in "artifact"
    ensures |MappedFallback(fallback)| == |fallback|
            && forall i :: 0 <= i < |fallback| ==>
                 MappedFallback(fallback)[i] == if KeptChar(fallback[i]) && fallback[i] != '.' then fallback[i] else '_'
  {
  }

  /** A leaf of dots: the fallback takes its place, its own dots becoming underscores, and "artifact" when there is
      none. */
  lemma SanitizedDots(dir: string, dots: string, fallback: string, extension: string)
    requires IsDirectory(dir) && dots != "" && AllDots(dots)
    ensures SanitizeFileName(dir + dots, fallback, extension) ==
            (if fallback == "" then "artifact" else MappedFallback(fallback)) + "." + extension
    ensures fallback != "" ==>
              |MappedFallback(fallback)| == |fallback|
              && forall i :: 0 <= i < |fallback| ==>
                   MappedFallback(fallback)[i] == if KeptChar(fallback[i]) && fallback[i] != '.' then fallback[i] else '_'
  {
    SanitizedLeaf(dir, dots, fallback, extension);
    StemOfDots(dots, fallback);
    FallbackHasNoDot(fallback);
    NameWithoutExtension(if fallback == "" then "artifact" else MappedFallback(fallback), 0);
  }

  /** An empty leaf: the fallback is sanitized in its place. */
  lemma SanitizedEmptyLeaf(dir: string, fallback: string, extension: string)
    requires IsDirectory(dir) && '/' !in fallback && '\\' !in fallback && fallback != ""
    ensures SanitizeFileName(dir, fallback, extension) == SanitizeFileName(fallback, fallback, extension)
  {
    LeafMeaning(dir, "");
    LeafMeaning("", fallback);
    assert dir + "" == dir && "" + fallback == fallback;
  }

  /** The extension for a payload: fixed for JSON, by media type where known, and otherwise by form. */
  lemma PayloadExtensions(mime: Option<string>)
    ensures PayloadExtension(mime, JsonForm) == "json"
    ensures ExtensionForMime(mime).Some? ==>
              PayloadExtension(mime, RawForm) == PayloadExtension(mime, TextForm) == ExtensionForMime(mime).value
    ensures ExtensionForMime(mime).None? ==> PayloadExtension(mime, RawForm) == "bin" && PayloadExtension(mime, TextForm) == "txt"
    ensures ExtensionForMime(None).None?
  {
  }

  // ----- Distinct names -----

  lemma SafeAppend(s: string, t: string)
    requires SafeName(s) && AllSafe(t)
    ensures SafeName(s + t)
  {
  }

  lemma DigitsAreSafe(s: string)
    requires AllDigits(s)
    ensures AllSafe(s)
  {
    forall i | 0 <= i < |s| ensures IsSafeChar(s[i]) { assert IsDigit(s[i]); }
  }

  lemma NamePartsAreSafe(name: string)
    requires SafeName(name)
    ensures var (stem, extension) := NameParts(name);
            SafeName(stem) && (extension.Some? ==> AllSafe(extension.value))
  {
  }

  lemma NumberedIsSafe(name: string, n: nat)
    requires SafeName(name)
    ensures SafeName(Numbered(name, n))
  {
    var (stem, extension) := NameParts(name);
    NamePartsAreSafe(name);
    DigitsAreSafe(Decimal(n));
    SafeAppend(stem, "-");
    SafeAppend(stem + "-", Decimal(n));
    if extension.Some? {
      SafeAppend(stem + "-" + Decimal(n), "." + extension.value);
    } else {
      assert stem + "-" + Decimal(n) + "" == stem + "-" + Decimal(n);
    }
  }

  lemma NumberedFill(name: string, n: nat, used: set<string>)
    requires n >= 2 && forall k :: 2 <= k < n ==> Numbered(name, k) in used
    ensures n - 2 <= |used|
  {
    assert forall k :: 2 <= k < 2 + (n - 2) ==> Candidate(name, k) == Numbered(name, k);
    CandidatesFill(name, 2, n - 2, used);
  }

  /** The unbounded suffix search: it ends within |used| + 1 candidates, the base itself among them. */
  method UniqueSafeFileName(base: string, used: set<string>) returns (name: string, used': set<string>, tried: nat)
    requires SafeName(base)
    ensures name !in used && used' == used + {name} && SafeName(name)
    ensures base !in used <==> name == base
    ensures base in used ==> name == Numbered(base, tried + 1) && 1 <= tried <= |used|
                             && forall k :: 2 <= k < tried + 1 ==> Numbered(base, k) in used
  {
    if base !in used {
      return base, used + {base}, 0;
    }
    var suffix := 2;
    while Numbered(base, suffix) in used
      invariant suffix >= 2 && forall k :: 2 <= k < suffix ==> Numbered(base, k) in used
      decreases |used| + 2 - suffix
    {
      suffix := suffix + 1;
      NumberedFill(base, suffix, used);
    }
    forall k | 2 <= k < suffix ensures Numbered(base, k) in used - {base} { NumberedIsLonger(base, k); }
    NumberedFill(base, suffix, used - {base});
    NumberedIsSafe(base, suffix);
    NumberedIsLonger(base, suffix);
    return Numbered(base, suffix), used + {Numbered(base, suffix)}, suffix - 1;
  }

  /** Which payload is written: raw bytes, text, or a JSON document. */
  datatype PayloadForm = RawForm | TextForm | JsonForm

  predicate EndsWith(s: string, tail: string) {
    |s| >= |tail| && s[|s| - |tail|..] == tail
  }

  lemma EndsWithMeaning(s: string, tail: string)
    ensures EndsWith(s, tail) <==> exists head :: s == head + tail
  {
    if EndsWith(s, tail) { assert s == s[..|s| - |tail|] + tail; }
  }

  const EXTENSIONS := ["json", "md", "txt", "bin", "png", "jpg", "gif"]

  const FIXED_TYPES: map<string, string> :=
    map["application/json" := "json", "text/markdown" := "md", "text/x-markdown" := "md",
        "application/octet-stream" := "bin", "image/png" := "png", "image/jpeg" := "jpg", "image/gif" := "gif"]

  function ExtensionForMime(mime: Option<string>): (r: Option<string>)
    ensures r.Some? ==> r.value in EXTENSIONS
  {
    if mime.None? then None
    else
      var value := AsciiLower(mime.value);
      if value == "application/json" || EndsWith(value, "+json") then Some("json")
      else if value == "text/markdown" || value == "text/x-markdown" then Some("md")
      else if "text/" <= value then Some("txt")
      else if value == "application/octet-stream" then Some("bin")
      else if value == "image/png" then Some("png")
      else if value == "image/jpeg" then Some("jpg")
      else if value == "image/gif" then Some("gif")
      else None
  }

  /** Which media type gives which extension: a table, then the "+json" suffix, then the "text/" prefix;
      letter case does not matter, and anything else has none. */
  lemma ExtensionTable(mime: string)
    ensures var value := AsciiLower(mime);
            ExtensionForMime(Some(mime)) ==
            if value in FIXED_TYPES then Some(FIXED_TYPES[value])
            else if EndsWith(value, "+json") then Some("json")
            else if "text/" <= value then Some("txt") else None
    ensures ExtensionForMime(Some(AsciiLower(mime))) == ExtensionForMime(Some(mime))
  {
    AsciiLowerIdempotent(mime);
    var value := AsciiLower(mime);
    if value in FIXED_TYPES {
      FixedTypeIsPlain(value);
    } else {
      assert value != "application/json" && value != "text/markdown" && value != "text/x-markdown";
      assert value != "application/octet-stream" && value != "image/png" && value != "image/jpeg" && value != "image/gif";
    }
  }

  lemma FixedTypeIsPlain(value: string)
    requires value in FIXED_TYPES
    ensures !EndsWith(value, "+json") && ("text/" <= value ==> FIXED_TYPES[value] == "md")
  {
    assert value[|value| - 5] != '+';
    assert FIXED_TYPES[value] != "md" ==> value[0] != 't';
  }

  /** JSON documents ignore the media type. */
  function PayloadExtension(mime: Option<string>, form: PayloadForm): string {
    if form.JsonForm? then "json"
    else
      var known := ExtensionForMime(mime);
      if known.Some? then known.value else if form.RawForm? then "bin" else "txt"
  }

  lemma PayloadExtensionIsSafe(mime: Option<string>, form: PayloadForm)
    ensures SafeExtension(PayloadExtension(mime, form))
  {
    assert PayloadExtension(mime, form) in EXTENSIONS;
    KnownExtensionIsSafe(PayloadExtension(mime, form));
  }

  lemma KnownExtensionIsSafe(extension: string)
    requires extension in EXTENSIONS
    ensures SafeExtension(extension)
  {
  }

  /** What naming reads of an artifact: its name, its parts' file names, its id, and what its payload is. */
  datatype Naming = Naming(name: Option<string>, partNames: seq<Option<string>>, id: string, mime: Option<string>, form: PayloadForm)

  function Preferred(n: Naming): string {
    var given := OrElse(n.name, FirstSome(n.partNames));
    if given.Some? then given.value else n.id
  }

  function SafeFileName(n: Naming): string {
    SanitizeFileName(Preferred(n), n.id, PayloadExtension(n.mime, n.form))
  }

  /** The name asked for is the artifact's own, or else its first part's, or else its id; a clean one that has an
      extension is used as it is. */
  lemma SafeFileNameMeaning(n: Naming)
    ensures n.name.Some? ==> Preferred(n) == n.name.value
    ensures n.name.None? && n.partNames != [] && n.partNames[0].Some? ==> Preferred(n) == n.partNames[0].value
    ensures n.name.None? && (forall i :: 0 <= i < |n.partNames| ==> n.partNames[i].None?) ==> Preferred(n) == n.id
    ensures CleanName(Preferred(n)) && NameParts(Preferred(n)).1.Some? ==> SafeFileName(n) == Preferred(n)
    ensures CleanName(n.id) ==>
              && SafeFileName(n.(name := Some(""))) == WithExtension(n.id, PayloadExtension(n.mime, n.form))
              && WithExtension(n.id, PayloadExtension(n.mime, n.form)) ==
                 if NameParts(n.id).1.Some? then n.id else n.id + "." + PayloadExtension(n.mime, n.form)
  {
    FirstSomeIsFirst(n.partNames);
    if CleanName(Preferred(n)) { LeafOfClean(Preferred(n)); }
    LeafMeaning("", "");
  }

  /** The i-th name is the wanted one unless an earlier export took it, and a numbered form of it otherwise. */
  ghost predicate NamedAfter(name: string, base: string, earlier: seq<string>) {
    (name == base <==> base !in earlier) && exists n :: name == Candidate(base, n)
  }

  /** Each name is safe, comes from its base, and repeats no earlier one. */
  ghost predicate WellNamed(names: seq<string>, bases: seq<string>) {
    && |names| <= |bases|
    && (forall i :: 0 <= i < |names| ==> SafeName(names[i]) && NamedAfter(names[i], bases[i], names[..i]))
    && (forall i :: 0 <= i < |names| ==> names[i] !in names[..i])
  }

  lemma WellNamedSnoc(names: seq<string>, bases: seq<string>, name: string)
    requires WellNamed(names, bases) && |names| < |bases|
    requires SafeName(name) && name !in names && NamedAfter(name, bases[|names|], names)
    ensures WellNamed(names + [name], bases)
  {
    var longer := names + [name];
    forall i | 0 <= i < |longer|
      ensures SafeName(longer[i]) && NamedAfter(longer[i], bases[i], longer[..i]) && longer[i] !in longer[..i]
    {
      if i < |names| { assert longer[..i] == names[..i] && longer[i] == names[i]; } else { assert longer[..i] == names; }
    }
  }

  lemma WellNamedAreDistinct(names: seq<string>, bases: seq<string>)
    requires WellNamed(names, bases)
    ensures forall i, j :: 0 <= i < j < |names| ==> names[i] != names[j]
  {
    forall i, j | 0 <= i < j < |names| ensures names[i] != names[j] { assert names[..j][i] == names[i]; }
  }

  method UniqueNames(bases: seq<string>) returns (names: seq<string>)
    requires forall i :: 0 <= i < |bases| ==> SafeName(bases[i])
    ensures |names| == |bases| && WellNamed(names, bases)
  {
    names := [];
    var used: set<string> := {};
    for i := 0 to |bases|
      invariant |names| == i && WellNamed(names, bases)
      invariant forall n :: n in used <==> n in names
    {
      var name, used', tried := UniqueSafeFileName(bases[i], used);
      assert NamedAfter(name, bases[i], names) by {
        assert name == Candidate(bases[i], if bases[i] in used then tried + 1 else 0);
      }
      WellNamedSnoc(names, bases, name);
      names, used := names + [name], used';
    }
  }

  /** A whole export: safe names, pairwise distinct, each the sanitized name or a numbered form of it. */
  method ExportFileNames(artifacts: seq<Naming>) returns (names: seq<string>)
    ensures |names| == |artifacts|
    ensures forall i :: 0 <= i < |names| ==> SafeName(names[i]) && NamedAfter(names[i], SafeFileName(artifacts[i]), names[..i])
    ensures forall i, j :: 0 <= i < j < |names| ==> names[i] != names[j]
  {
    var bases := seq(|artifacts|, i requires 0 <= i < |artifacts| => SafeFileName(artifacts[i]));
    forall i | 0 <= i < |bases| ensures SafeName(bases[i]) {
      PayloadExtensionIsSafe(artifacts[i].mime, artifacts[i].form);
      SanitizedIsClean(Preferred(artifacts[i]), artifacts[i].id, PayloadExtension(artifacts[i].mime, artifacts[i].form));
    }
    names := UniqueNames(bases);
    WellNamedAreDistinct(names, bases);
  }

  /** A safe name has no path separator and is not a directory reference. */
  lemma SafeNamesStayInside(name: string)
    requires SafeName(name)
    ensures '/' !in name && '\\' !in name && name != "" && name != "." && name != ".."
  {
    assert !IsSafeChar('/') && !IsSafeChar('\\');
  }
}
