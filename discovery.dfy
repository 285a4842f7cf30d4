/**
 * Player discovery: scanning the players directory for `.yaml` files and
 * collecting the `name` of every document in them. Read and parse failures
 * are logged as warnings and never abort the scan; only a missing or
 * unlistable directory is an error.
 */
module Discovery {
  import opened Consts
  import opened Errors
  import opened Environment

  // ---------------------------------------------------------------------
  // File extensions

  /** The index of the last occurrence of `c` in `s`, if any. */
  function LastIndexOf(s: string, c: char): (r: Option<nat>)
    ensures r.Some? ==> r.value < |s| && s[r.value] == c
    ensures r.Some? ==> forall k :: r.value < k < |s| ==> s[k] != c
    ensures r.None? ==> forall k :: 0 <= k < |s| ==> s[k] != c
  {
    if s == [] then None
    else if s[|s| - 1] == c then Some(|s| - 1)
    else LastIndexOf(s[..|s| - 1], c)
  }

  /**
   * The extension of a file name, as the standard library defines it: the
   * text after the last dot, unless there is no dot, the only dot starts the
   * name, or the name is `..`.
   */
  function Extension(name: string): Option<string> {
    if name == ".." then None
    else
      match LastIndexOf(name, '.')
      case None => None
      case Some(i) => if i == 0 then None else Some(name[i + 1..])
  }

  /** A name has the extension `yaml` exactly when it is something followed by `.yaml` (case-sensitive). */
  lemma YamlExtensionIff(name: string)
    ensures Extension(name) == Some(YamlExt) <==> |name| > 5 && name[|name| - 5..] == ".yaml"
  {
    var n := |name|;
    if |name| > 5 && name[n - 5..] == ".yaml" {
      assert name[n - 5] == '.';
      assert forall k :: n - 5 < k < n ==> name[k] != '.' by {
        forall k | n - 5 < k < n ensures name[k] != '.' {
          assert name[k] == name[n - 5..][k - (n - 5)];
        }
      }
      var r := LastIndexOf(name, '.');
      assert r == Some(n - 5);
      assert name[n - 4..] == "yaml" by {
        assert name[n - 4..] == name[n - 5..][1..];
      }
    }
    if Extension(name) == Some(YamlExt) {
      var i := LastIndexOf(name, '.').value;
      assert name[i + 1..] == "yaml";
      assert n == i + 5;
      assert name[n - 5..] == [name[i]] + name[i + 1..];
    }
  }

  /** Directory entries that become candidates: regular files whose extension is exactly `yaml`. */
  predicate IsCandidate(e: DirEntry) {
    e.Entry? && e.isFile && Extension(e.name) == Some(YamlExt)
  }

  /** A candidate file: its path and what reading it yields. */
  datatype Candidate = Candidate(file: Path, contents: ReadResult)

  function CandidateOf(dir: Path, e: DirEntry): Candidate
    requires e.Entry?
  {
    Candidate(Join(dir, e.name), e.contents)
  }

  /** The listing filtered to candidates, in listing order; other entries vanish without a warning. */
  function Candidates(dir: Path, entries: seq<DirEntry>): seq<Candidate> {
    if entries == [] then []
    else if IsCandidate(entries[0]) then [CandidateOf(dir, entries[0])] + Candidates(dir, entries[1..])
    else Candidates(dir, entries[1..])
  }

  lemma {:induction false} CandidatesAppend(dir: Path, a: seq<DirEntry>, b: seq<DirEntry>)
    ensures Candidates(dir, a + b) == Candidates(dir, a) + Candidates(dir, b)
  {
    if a == [] {
      assert a + b == b;
    } else {
      assert (a + b)[1..] == a[1..] + b;
      CandidatesAppend(dir, a[1..], b);
    }
  }

  /** Every candidate comes from a qualifying entry, and every qualifying entry yields a candidate. */
  lemma {:induction false} CandidatesMembership(dir: Path, entries: seq<DirEntry>, c: Candidate)
    ensures c in Candidates(dir, entries) <==>
      exists k :: 0 <= k < |entries| && IsCandidate(entries[k]) && c == CandidateOf(dir, entries[k])
  {
    if entries != [] {
      CandidatesMembership(dir, entries[1..], c);
      if c in Candidates(dir, entries[1..]) {
        var k :| 0 <= k < |entries[1..]| && IsCandidate(entries[1..][k]) && c == CandidateOf(dir, entries[1..][k]);
        assert entries[k + 1] == entries[1..][k];
      }
      if exists k :: 0 <= k < |entries| && IsCandidate(entries[k]) && c == CandidateOf(dir, entries[k]) {
        var k :| 0 <= k < |entries| && IsCandidate(entries[k]) && c == CandidateOf(dir, entries[k]);
        if k > 0 {
          assert entries[1..][k - 1] == entries[k];
        }
      }
    }
  }

  // ---------------------------------------------------------------------
  // Normalising a file's text before it is parsed

  /** Whitespace in the sense of Unicode's White_Space property. Note that U+FEFF is not whitespace. */
  predicate IsWhitespace(c: char) {
    ('\U{0009}' <= c <= '\U{000D}') || c == '\U{0020}' || c == '\U{0085}' || c == '\U{00A0}'
    || c == '\U{1680}' || ('\U{2000}' <= c <= '\U{200A}') || c == '\U{2028}' || c == '\U{2029}'
    || c == '\U{202F}' || c == '\U{205F}' || c == '\U{3000}'
  }

  /** Removes every leading byte-order mark. */
  function StripBoms(s: string): (r: string)
    ensures |r| <= |s| && r == s[|s| - |r|..]
    ensures forall k :: 0 <= k < |s| - |r| ==> s[k] == Bom
    ensures r == [] || r[0] != Bom
  {
    if s != [] && s[0] == Bom then StripBoms(s[1..]) else s
  }

  /** Removes leading whitespace. */
  function TrimStart(s: string): (r: string)
    ensures |r| <= |s| && r == s[|s| - |r|..]
    ensures forall k :: 0 <= k < |s| - |r| ==> IsWhitespace(s[k])
    ensures r == [] || !IsWhitespace(r[0])
  {
    if s != [] && IsWhitespace(s[0]) then TrimStart(s[1..]) else s
  }

  /** The text handed to the YAML loader: leading BOMs stripped, then leading whitespace trimmed. */
  function Normalise(s: string): string {
    TrimStart(StripBoms(s))
  }

  /** The normalised text is a suffix of the input. */
  lemma NormaliseIsSuffix(s: string)
    ensures var r := Normalise(s); |r| <= |s| && r == s[|s| - |r|..]
  {
    var b := StripBoms(s);
    var i := |s| - |b|;
    var r := TrimStart(b);
    assert b == s[i..];
    assert r == b[|b| - |r|..];
    assert b[|b| - |r|..] == s[i..][|b| - |r|..];
    assert s[i..][|b| - |r|..] == s[i + |b| - |r|..];
  }

  /**
   * Normalise drops exactly a run of BOMs followed by a run of whitespace:
   * with `i` the length of the BOM run, the first `i` characters are BOMs and
   * the next is not, the characters from there up to the result are
   * whitespace, and the result is the rest of the input, starting with
   * something other than whitespace.
   */
  lemma NormaliseDropsBomsThenWhitespace(s: string)
    ensures var r := Normalise(s); var i := |s| - |StripBoms(s)|;
      0 <= i <= |s| - |r| && r == s[|s| - |r|..] &&
      (forall k :: 0 <= k < i ==> s[k] == Bom) &&
      (i < |s| ==> s[i] != Bom) &&
      (forall k :: i <= k < |s| - |r| ==> IsWhitespace(s[k])) &&
      (r == [] || !IsWhitespace(r[0]))
  {
    NormaliseIsSuffix(s);
    var b := StripBoms(s);
    var i := |s| - |b|;
    var r := TrimStart(b);
    forall k | i <= k < |s| - |r| ensures IsWhitespace(s[k]) {
      assert s[k] == b[k - i];
    }
    assert i < |s| ==> s[i] == b[0];
  }

  /** A leading BOM does not change the normalised text. */
  lemma NormaliseIgnoresBom(s: string)
    ensures Normalise([Bom] + s) == Normalise(s)
  {
    assert ([Bom] + s)[1..] == s;
  }

  /** A BOM is not whitespace, so trimming stops at one. */
  lemma TrimStartStopsAtBom(s: string)
    ensures TrimStart([Bom] + s) == [Bom] + s
  {
  }

  lemma StripBomsStopsAtWhitespace(w: char, s: string)
    requires IsWhitespace(w)
    ensures StripBoms([w] + s) == [w] + s
  {
  }

  lemma TrimStartDropsWhitespace(w: char, s: string)
    requires IsWhitespace(w)
    ensures TrimStart([w] + s) == TrimStart(s)
  {
    var t := [w] + s;
    assert t != [] && t[0] == w && IsWhitespace(t[0]);
    assert TrimStart(t) == TrimStart(t[1..]);
    assert t[1..] == s;
  }

  /**
   * Whitespace before a BOM is trimmed but that BOM is kept, so normalising
   * twice can remove more than normalising once.
   */
  lemma NormaliseKeepsBomAfterWhitespace(w: char, s: string)
    requires IsWhitespace(w)
    ensures Normalise([w, Bom] + s) == [Bom] + s
    ensures Normalise(Normalise([w, Bom] + s)) == Normalise(s)
  {
    var t := [Bom] + s;
    assert [w, Bom] + s == [w] + t;
    StripBomsStopsAtWhitespace(w, t);
    assert StripBoms([w] + t) == [w] + t;
    TrimStartDropsWhitespace(w, t);
    assert TrimStart([w] + t) == TrimStart(t);
    TrimStartStopsAtBom(s);
    assert Normalise([w, Bom] + s) == t;
    NormaliseIgnoresBom(s);
    assert Normalise(t) == Normalise(s);
  }

  // ---------------------------------------------------------------------
  // Extracting names

  /** The `name` of a document: present when it is a mapping whose `name` key holds a string. */
  function NameOf(doc: Yaml): Option<string> {
    if doc.Mapping? && "name" in doc.fields && doc.fields["name"].Str? then Some(doc.fields["name"].s)
    else None
  }

  /** What scanning some files yields: names in order, and the warnings logged on the way. */
  datatype Scan = Scan(names: seq<string>, warnings: seq<Warning>)

  function Combine(a: Scan, b: Scan): Scan {
    Scan(a.names + b.names, a.warnings + b.warnings)
  }

  lemma CombineAssociative(a: Scan, b: Scan, c: Scan)
    ensures Combine(Combine(a, b), c) == Combine(a, Combine(b, c))
  {
    assert (a.names + b.names) + c.names == a.names + (b.names + c.names);
    assert (a.warnings + b.warnings) + c.warnings == a.warnings + (b.warnings + c.warnings);
  }

  /** Each document of `file` gives its name, or a warning that it has none. */
  function DocNames(file: Path, docs: seq<Yaml>): Scan {
    if docs == [] then Scan([], [])
    else
      var first := match NameOf(docs[0])
        case Some(n) => Scan([n], [])
        case None => Scan([], [NoNameField(file)]);
      Combine(first, DocNames(file, docs[1..]))
  }

  /** Every warning a file's documents give is the missing-name warning for that file. */
  lemma {:induction false} DocNamesWarnings(file: Path, docs: seq<Yaml>)
    ensures forall w :: w in DocNames(file, docs).warnings ==> w == NoNameField(file)
  {
    if docs != [] {
      DocNamesWarnings(file, docs[1..]);
    }
  }

  /** The number of documents in `docs` that carry a name. */
  function NamedCount(docs: seq<Yaml>): nat {
    if docs == [] then 0 else (if NameOf(docs[0]).Some? then 1 else 0) + NamedCount(docs[1..])
  }

  /**
   * Every document contributes exactly one name or exactly one warning: as
   * many names as named documents, one warning naming the file for each of
   * the others.
   */
  lemma {:induction false} DocNamesCounts(file: Path, docs: seq<Yaml>)
    ensures var sc := DocNames(file, docs);
      |sc.names| == NamedCount(docs) && |sc.warnings| == |docs| - NamedCount(docs) &&
      forall w :: w in sc.warnings ==> w == NoNameField(file)
  {
    if docs != [] {
      DocNamesCounts(file, docs[1..]);
    }
  }

  /** Scanning one candidate: a read or parse failure gives one warning and no names. */
  function ScanFile(c: Candidate, parse: string -> ParseResult): Scan {
    match c.contents
    case ReadFailed(cause) => Scan([], [FileReadFailed(c.file, cause)])
    case Text(text) => ScanParsed(c.file, parse(Normalise(text)))
  }

  /** What a file whose text the loader has judged contributes. */
  function ScanParsed(file: Path, parsed: ParseResult): Scan {
    match parsed
    case ParseError(cause) => Scan([], [FileParseFailed(file, cause)])
    case Documents(docs) => DocNames(file, docs)
  }

  /** How many log-or-name items a candidate accounts for: one if it fails, else one per document. */
  function Weight(c: Candidate, parse: string -> ParseResult): nat {
    match c.contents
    case ReadFailed(_) => 1
    case Text(text) =>
      match parse(Normalise(text))
      case ParseError(_) => 1
      case Documents(docs) => |docs|
  }

  lemma ScanFileSpec(c: Candidate, parse: string -> ParseResult)
    ensures var sc := ScanFile(c, parse);
      |sc.names| + |sc.warnings| == Weight(c, parse) &&
      (c.contents.ReadFailed? ==> sc == Scan([], [FileReadFailed(c.file, c.contents.cause)])) &&
      (c.contents.Text? && parse(Normalise(c.contents.text)).ParseError? ==>
         sc == Scan([], [FileParseFailed(c.file, parse(Normalise(c.contents.text)).cause)]))
  {
    if c.contents.Text? {
      var p := parse(Normalise(c.contents.text));
      if p.Documents? {
        DocNamesCounts(c.file, p.docs);
      }
    }
  }

  /** A file whose text is preceded by a BOM scans exactly like the same text without it. */
  lemma ScanFileIgnoresBom(file: Path, text: string, parse: string -> ParseResult)
    ensures ScanFile(Candidate(file, Text([Bom] + text)), parse) == ScanFile(Candidate(file, Text(text)), parse)
  {
    var withBom := Normalise([Bom] + text);
    NormaliseIgnoresBom(text);
    assert ScanFile(Candidate(file, Text([Bom] + text)), parse) == ScanParsed(file, parse(withBom));
  }

  /** Scanning every candidate and concatenating, in candidate order. */
  function ScanAll(cs: seq<Candidate>, parse: string -> ParseResult): Scan {
    if cs == [] then Scan([], []) else Combine(ScanFile(cs[0], parse), ScanAll(cs[1..], parse))
  }

  function TotalWeight(cs: seq<Candidate>, parse: string -> ParseResult): nat {
    if cs == [] then 0 else Weight(cs[0], parse) + TotalWeight(cs[1..], parse)
  }

  /** Scanning splits over a split of the candidates, so a failing file never disturbs the others. */
  lemma {:induction false} ScanAllAppend(a: seq<Candidate>, b: seq<Candidate>, parse: string -> ParseResult)
    ensures ScanAll(a + b, parse) == Combine(ScanAll(a, parse), ScanAll(b, parse))
  {
    if a == [] {
      assert a + b == b;
    } else {
      assert (a + b)[0] == a[0];
      assert (a + b)[1..] == a[1..] + b;
      ScanAllAppend(a[1..], b, parse);
      CombineAssociative(ScanFile(a[0], parse), ScanAll(a[1..], parse), ScanAll(b, parse));
    }
  }

  /** Every document and every failing candidate is accounted for exactly once, as a name or a warning. */
  lemma {:induction false} ScanAllAccounts(cs: seq<Candidate>, parse: string -> ParseResult)
    ensures |ScanAll(cs, parse).names| + |ScanAll(cs, parse).warnings| == TotalWeight(cs, parse)
  {
    if cs != [] {
      ScanFileSpec(cs[0], parse);
      ScanAllAccounts(cs[1..], parse);
    }
  }

  /** A name is found exactly when some candidate's scan yields it. */
  lemma {:induction false} ScanAllMembership(cs: seq<Candidate>, parse: string -> ParseResult, n: string)
    ensures n in ScanAll(cs, parse).names <==> exists k :: 0 <= k < |cs| && n in ScanFile(cs[k], parse).names
  {
    if cs != [] {
      ScanAllMembership(cs[1..], parse, n);
      if n in ScanAll(cs[1..], parse).names {
        var k :| 0 <= k < |cs[1..]| && n in ScanFile(cs[1..][k], parse).names;
        assert cs[k + 1] == cs[1..][k];
      }
      if exists k :: 0 <= k < |cs| && n in ScanFile(cs[k], parse).names {
        var k :| 0 <= k < |cs| && n in ScanFile(cs[k], parse).names;
        if k > 0 {
          assert cs[1..][k - 1] == cs[k];
        }
      }
    }
  }

  // ---------------------------------------------------------------------
  // The whole discovery

  /**
   * Discovers the players under `dir`: a missing directory is `NoPlayerDir`,
   * one that cannot be listed is an I/O error, and otherwise the names and
   * warnings of every candidate file in listing order. Zero names is not an
   * error here.
   */
  function FindPlayers(dir: Path, fs: FileSystem, parse: string -> ParseResult): (r: Result<Scan>)
    ensures dir !in fs ==> r == Err(Validation(NoPlayerDir))
    ensures dir in fs && fs[dir].Unlistable? ==> r == Err(IO(fs[dir].cause))
    ensures r.Err? <==> dir !in fs || fs[dir].Unlistable?
  {
    if dir !in fs then Err(Validation(NoPlayerDir))
    else
      match fs[dir]
      case Unlistable(cause) => Err(IO(cause))
      case Dir(entries) => Ok(ScanAll(Candidates(dir, entries), parse))
  }

  /** Entries that are not candidates (other extensions, directories, unreadable entries) change nothing. */
  lemma IgnoredEntryChangesNothing(dir: Path, before: seq<DirEntry>, e: DirEntry, after: seq<DirEntry>, parse: string -> ParseResult)
    requires !IsCandidate(e)
    ensures ScanAll(Candidates(dir, before + [e] + after), parse) == ScanAll(Candidates(dir, before + after), parse)
  {
    CandidatesAppend(dir, before + [e], after);
    CandidatesAppend(dir, before, [e]);
    assert [e][1..] == [];
    assert Candidates(dir, [e]) == [];
    assert Candidates(dir, before) + [] == Candidates(dir, before);
    CandidatesAppend(dir, before, after);
  }

  /** Some document in `docs` is named `n`. */
  predicate Names(docs: seq<Yaml>, n: string) {
    exists d :: d in docs && NameOf(d) == Some(n)
  }

  /** Candidate `c` reads, parses, and holds a document named `n`. */
  predicate YieldsName(c: Candidate, parse: string -> ParseResult, n: string) {
    c.contents.Text? && parse(Normalise(c.contents.text)).Documents? &&
    Names(parse(Normalise(c.contents.text)).docs, n)
  }

  /** The names a file's documents give are exactly the names its documents carry. */
  lemma {:induction false} DocNamesMembership(file: Path, docs: seq<Yaml>, n: string)
    ensures n in DocNames(file, docs).names <==> Names(docs, n)
  {
    if docs != [] {
      DocNamesMembership(file, docs[1..], n);
      assert docs == [docs[0]] + docs[1..];
      if Names(docs[1..], n) {
        var d :| d in docs[1..] && NameOf(d) == Some(n);
        assert d in docs;
      }
      if Names(docs, n) && NameOf(docs[0]) != Some(n) {
        var d :| d in docs && NameOf(d) == Some(n);
        assert d in docs[1..];
      }
    }
  }

  lemma ScanFileNames(c: Candidate, parse: string -> ParseResult, n: string)
    ensures n in ScanFile(c, parse).names <==> YieldsName(c, parse, n)
  {
    match c.contents
    case ReadFailed(_) =>
      assert ScanFile(c, parse).names == [];
    case Text(text) =>
      var p := parse(Normalise(text));
      assert ScanFile(c, parse) == ScanParsed(c.file, p);
      match p
      case ParseError(_) =>
        assert ScanParsed(c.file, p).names == [];
      case Documents(docs) =>
        DocNamesMembership(c.file, docs, n);
        assert YieldsName(c, parse, n) == Names(docs, n);
  }

  /** The names scanned from a directory listing's candidates are the names some candidate yields. */
  lemma CandidateNames(dir: Path, entries: seq<DirEntry>, parse: string -> ParseResult, n: string)
    ensures var cs := Candidates(dir, entries);
      n in ScanAll(cs, parse).names <==> exists k :: 0 <= k < |cs| && YieldsName(cs[k], parse, n)
  {
    var cs := Candidates(dir, entries);
    ScanAllMembership(cs, parse, n);
    forall k | 0 <= k < |cs| ensures n in ScanFile(cs[k], parse).names <==> YieldsName(cs[k], parse, n) {
      ScanFileNames(cs[k], parse, n);
    }
  }

  /**
   * A name is discovered exactly when some candidate file of the directory
   * reads, parses, and holds a document naming it.
   */
  lemma FindPlayersMembership(dir: Path, fs: FileSystem, parse: string -> ParseResult, n: string)
    requires dir in fs && fs[dir].Dir?
    ensures var cs := Candidates(dir, fs[dir].entries);
      n in FindPlayers(dir, fs, parse).value.names <==> exists k :: 0 <= k < |cs| && YieldsName(cs[k], parse, n)
  {
    var entries := fs[dir].entries;
    assert FindPlayers(dir, fs, parse).value == ScanAll(Candidates(dir, entries), parse);
    CandidateNames(dir, entries, parse, n);
  }

  /** A warning about a file: it could not be read, could not be parsed, or has a document without a name. */
  predicate FileWarning(w: Warning) {
    w.FileReadFailed? || w.FileParseFailed? || w.NoNameField?
  }

  /** Scanning files only ever warns about files. */
  lemma {:induction false} ScanAllWarnings(cs: seq<Candidate>, parse: string -> ParseResult)
    ensures forall w :: w in ScanAll(cs, parse).warnings ==> FileWarning(w)
  {
    if cs != [] {
      ScanAllWarnings(cs[1..], parse);
      var c := cs[0];
      if c.contents.Text? && parse(Normalise(c.contents.text)).Documents? {
        DocNamesWarnings(c.file, parse(Normalise(c.contents.text)).docs);
      }
    }
  }
}
