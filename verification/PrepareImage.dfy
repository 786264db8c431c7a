// Installing a cloud image: download to a temporary file, verify, rename; and
// the customisation command with its network-free fallback.
module PrepareImage {
  import opened Basics

  type Content = seq<bv8>

  // ----- paths ---------------------------------------------------------------------

  datatype Path = Path(dir: string, name: string)

  // The index of the last "." of a file name.
  function LastDot(name: string): (r: Option<nat>)
    ensures r.Some? ==> r.value < |name| && name[r.value] == '.' && forall k :: r.value < k < |name| ==> name[k] != '.'
    ensures r.None? ==> '.' !in name
  {
    if name == "" then None
    else if name[|name| - 1] == '.' then Some(|name| - 1)
    else LastDot(name[..|name| - 1])
  }

  // PurePath.suffix: from the last dot, unless that starts or ends the name
  function Suffix(name: string): string {
    var dot := LastDot(name);
    if dot.Some? && 0 < dot.value < |name| - 1 then name[dot.value..] else ""
  }

  // PurePath.with_suffix
  function WithSuffix(name: string, suffix: string): string { name[..|name| - |Suffix(name)|] + suffix }

  function TmpPath(out: Path): Path { out.(name := WithSuffix(out.name, ".tmp")) }

  // The temporary path is the output path exactly for names that end in ".tmp".
  lemma TmpIsOut(out: Path)
    ensures TmpPath(out) == out <==> Suffix(out.name) == ".tmp"
  {
  }

  // The name is stem.ext, both non-empty and no dot in ext.
  ghost predicate Splits(name: string, stem: string, ext: string) {
    stem != "" && ext != "" && '.' !in ext && name == stem + "." + ext
  }

  lemma SuffixOf(name: string, stem: string, ext: string)
    requires Splits(name, stem, ext)
    ensures Suffix(name) == "." + ext && WithSuffix(name, ".tmp") == stem + ".tmp"
  {
    assert name[|stem|] == '.' && forall k :: |stem| < k < |name| ==> name[k] == ext[k - |stem| - 1];
    assert LastDot(name) == Some(|stem|);
    assert name[|stem|..] == "." + ext && name[..|stem|] == stem;
  }

  // The temporary path: .tmp in place of the extension, or after a name that has none.
  lemma TmpPathMeaning(out: Path)
    ensures TmpPath(out).dir == out.dir
    ensures forall stem, ext :: Splits(out.name, stem, ext) ==> TmpPath(out).name == stem + ".tmp"
    ensures (forall stem, ext :: !Splits(out.name, stem, ext)) ==> TmpPath(out).name == out.name + ".tmp"
  {
    var name := out.name;
    forall stem, ext | Splits(name, stem, ext) ensures TmpPath(out).name == stem + ".tmp" { SuffixOf(name, stem, ext); }
    var dot := LastDot(name);
    if dot.Some? && 0 < dot.value < |name| - 1 {
      var stem, ext := name[..dot.value], name[dot.value + 1..];
      assert '.' !in ext && name == stem + "." + ext;
      assert Splits(name, stem, ext);
    } else {
      assert name[..|name|] == name;
    }
  }

  // ----- SHA256SUMS ----------------------------------------------------------------------

  // str.splitlines on ASCII
  predicate IsBreak(c: char) { '\n' <= c <= '\r' || (28 as char) <= c <= (30 as char) }

  function Lines(s: string): seq<string> {
    if s == "" then []
    else if s[0] == '\r' && |s| > 1 && s[1] == '\n' then [""] + Lines(s[2..])
    else if IsBreak(s[0]) then [""] + Lines(s[1..])
    else
      var rest := Lines(s[1..]);
      if rest == [] then [[s[0]]] else [[s[0]] + rest[0]] + rest[1..]
  }

  function FirstWord(s: string): (w: string)
    ensures |w| <= |s| && (s != "" && !IsSpace(s[0]) ==> w != "")
  {
    if s == "" || IsSpace(s[0]) then "" else [s[0]] + FirstWord(s[1..])
  }

  // str.split()
  function Words(s: string): seq<string>
    decreases |s|
  {
    var t := LeftStrip(s);
    if t == "" then [] else [FirstWord(t)] + Words(t[|FirstWord(t)|..])
  }

  // str.lstrip("*")
  function Unstarred(s: string): string { if s != "" && s[0] == '*' then Unstarred(s[1..]) else s }

  // The digest a line gives for the file, if it is an entry for it.
  function EntryFor(line: string, filename: string): Option<string> {
    var parts := Words(line);
    if |parts| == 2 && Unstarred(parts[1]) == filename then Some(Lower(parts[0])) else None
  }

  // The first entry for the file decides.
  function Extract(lines: seq<string>, filename: string): Option<string> {
    if lines == [] then None
    else if EntryFor(lines[0], filename).Some? then EntryFor(lines[0], filename)
    else Extract(lines[1..], filename)
  }

  // _extract_sha256; None is its KeyError
  method ExtractSha256(content: string, filename: string) returns (r: Option<string>)
    ensures r == Extract(Lines(content), filename)
  {
    var lines := Lines(content);
    hide Lines, EntryFor;
    var k := 0;
    while k < |lines|
      invariant 0 <= k <= |lines|
      invariant Extract(lines, filename) == Extract(lines[k..], filename)
    {
      var entry := EntryFor(lines[k], filename);
      if entry.Some? { return entry; }
      assert lines[k..][1..] == lines[k + 1..];
      k := k + 1;
    }
    return None;
  }

  // A published sums file: one line "<digest>  <name>" per entry, or
  // "<digest> *<name>" for a file hashed in binary mode.
  datatype Sum = Sum(digest: string, name: string, binary: bool)

  function SumLine(s: Sum): string { s.digest + (if s.binary then " *" else "  ") + s.name }

  function Publish(sums: seq<Sum>): string {
    if sums == [] then "" else SumLine(sums[0]) + "\n" + Publish(sums[1..])
  }

  function Lookup(sums: seq<Sum>, name: string): Option<string> {
    if sums == [] then None
    else if sums[0].name == name then Some(Lower(sums[0].digest))
    else Lookup(sums[1..], name)
  }

  ghost predicate Plain(s: string) { s != "" && forall i :: 0 <= i < |s| ==> !IsSpace(s[i]) && !IsBreak(s[i]) }

  ghost predicate Publishable(s: Sum) { Plain(s.digest) && Plain(s.name) && s.name[0] != '*' }

  // One line break: a carriage return and a line feed together, or one of the
  // characters that break a line alone.
  ghost predicate LineBreak(brk: string) { brk == "\r\n" || (|brk| == 1 && Breaks(brk[0])) }

  ghost predicate Breaks(c: char) { c in "\n\r" || c as int in {11, 12, 28, 29, 30} }

  lemma IsBreakBreaks(c: char)
    ensures IsBreak(c) <==> Breaks(c)
  {
  }

  // The first line ends at the first break, and a carriage return takes the line
  // feed after it along.
  lemma {:induction false} FirstLine(line: string, brk: string, rest: string)
    requires (forall i :: 0 <= i < |line| ==> !Breaks(line[i])) && LineBreak(brk)
    requires brk == "\r" ==> rest == "" || rest[0] != '\n'
    ensures Lines(line + brk + rest) == [line] + Lines(rest)
  {
    var s := line + brk + rest;
    if line == "" {
      assert s == brk + rest && s[|brk|..] == rest;
      IsBreakBreaks(brk[0]);
      assert brk == "\r\n" ==> s[0] == '\r' && s[1] == '\n';
      assert s[0] == '\r' && |s| > 1 && s[1] == '\n' ==> brk == "\r\n";
    } else {
      IsBreakBreaks(line[0]);
      assert s[1..] == line[1..] + brk + rest;
      FirstLine(line[1..], brk, rest);
      assert line == [line[0]] + line[1..];
    }
  }

  // Without a break the text is one line.
  lemma {:induction false} OneLine(line: string)
    requires forall i :: 0 <= i < |line| ==> !Breaks(line[i])
    ensures Lines(line) == if line == "" then [] else [line]
  {
    if line != "" {
      IsBreakBreaks(line[0]);
      OneLine(line[1..]);
      assert line == [line[0]] + line[1..];
      assert line[1..] == "" ==> line == [line[0]];
      assert line[0] != '\r';
    }
  }

  lemma {:induction false} FirstWordOf(word: string, rest: string)
    requires forall i :: 0 <= i < |word| ==> !IsSpace(word[i])
    requires rest == "" || IsSpace(rest[0])
    ensures FirstWord(word + rest) == word
  {
    if word == "" {
      assert word + rest == rest;
    } else {
      assert (word + rest)[1..] == word[1..] + rest;
      FirstWordOf(word[1..], rest);
    }
  }

  lemma TwoWords(a: string, b: string)
    requires Plain(a) && Plain(b)
    ensures Words(a + " " + b) == [a, b] && Words(a + "  " + b) == [a, b]
  {
    assert a + " " + b == a + (" " + b) && a + "  " + b == a + ("  " + b);
    FirstWordOf(a, " " + b);
    FirstWordOf(a, "  " + b);
    assert (a + " " + b)[|a|..] == " " + b && (a + "  " + b)[|a|..] == "  " + b;
    assert ("  " + b)[1..] == " " + b && (" " + b)[1..] == b;
    assert LeftStrip("  " + b) == LeftStrip(" " + b) == LeftStrip(b) == b;
    assert b + "" == b;
    FirstWordOf(b, "");
    assert b[|b|..] == "" && Words("") == [];
  }

  lemma OneStar(name: string)
    requires name != "" && name[0] != '*'
    ensures Unstarred(name) == name && Unstarred("*" + name) == name
  {
    assert ("*" + name)[1..] == name;
  }

  lemma LineEntry(s: Sum, name: string)
    requires Publishable(s)
    ensures EntryFor(SumLine(s), name) == if s.name == name then Some(Lower(s.digest)) else None
  {
    OneStar(s.name);
    if s.binary {
      assert SumLine(s) == s.digest + " " + ("*" + s.name) by { assert " *" == " " + "*"; }
      TwoWords(s.digest, "*" + s.name);
    } else {
      TwoWords(s.digest, s.name);
    }
    hide Words, Unstarred, Lower;
  }

  // Reading a published sums file back finds each file's first digest, and
  // nothing for files it does not list.
  lemma {:induction false} ExtractPublished(sums: seq<Sum>, name: string)
    requires forall i :: 0 <= i < |sums| ==> Publishable(sums[i])
    ensures Extract(Lines(Publish(sums)), name) == Lookup(sums, name)
  {
    if sums != [] {
      var s := sums[0];
      var line := SumLine(s);
      forall i | 0 <= i < |line| ensures !Breaks(line[i]) { IsBreakBreaks(line[i]); }
      FirstLine(line, "\n", Publish(sums[1..]));
      assert Publish(sums) == line + "\n" + Publish(sums[1..]);
      LineEntry(s, name);
      ExtractPublished(sums[1..], name);
      assert ([line] + Lines(Publish(sums[1..])))[1..] == Lines(Publish(sums[1..]));
    }
  }

  // ----- hashing ------------------------------------------------------------------------------

  // hashlib.sha256(): the digest of everything fed so far
  class Hasher {
    const digest: Content -> string
    var fed: Content

    constructor (digest: Content -> string)
      ensures this.digest == digest && fed == []
    {
      this.digest, this.fed := digest, [];
    }

    method Update(chunk: Content)
      modifies this
      ensures fed == old(fed) + chunk
    {
      fed := fed + chunk;
    }

    function HexDigest(): string
      reads this
    {
      digest(fed)
    }
  }

  const CHUNK: nat := 0x10_0000

  // _sha256_of: the chunked read hashes the whole file
  method Sha256Of(file: Content, digest: Content -> string) returns (hex: string)
    ensures hex == digest(file)
  {
    var h := new Hasher(digest);
    var at := 0;
    while true
      invariant fresh(h) && 0 <= at <= |file|
      invariant h.fed == file[..at] && h.digest == digest
      decreases |file| - at
    {
      var upto := if at + CHUNK <= |file| then at + CHUNK else |file|;
      var chunk := file[at..upto];
      if chunk == [] { break; }
      h.Update(chunk);
      assert file[..upto] == file[..at] + chunk;
      at := upto;
    }
    assert file[..at] == file;
    hex := h.HexDigest();
  }

  // ----- download, verify, rename ----------------------------------------------------------------

  type Files = map<Path, Content>

  // What the mirror sends: nothing, or chunks that may break off early.
  datatype Reply = Unreachable | Streams(chunks: seq<Content>, complete: bool)

  // The outside world of one run: the sums text, the image, and which file
  // operations raise.
  datatype World = World(sums: Option<string>, image: Reply, unreadable: bool, renameFails: bool,
                         unlinkFails: bool, cleanupFails: bool)

  datatype PrepareResult =
    | AlreadyThere | Installed | NetworkError | UnknownFile | ChecksumMismatch(actual: string) | OsError

  // The states the disk goes through, in order, and how the run ends.
  datatype Trace = Trace(states: seq<Files>, result: PrepareResult)

  function Flat(chunks: seq<Content>): Content {
    if chunks == [] then [] else Flat(chunks[..|chunks| - 1]) + chunks[|chunks| - 1]
  }

  // dest.open("wb") empties the file, every chunk is appended to it.
  function Written(files: Files, dest: Path, chunks: seq<Content>): (states: seq<Files>)
    ensures |states| == |chunks| + 1
    ensures forall k :: 0 <= k <= |chunks| ==> states[k] == files[dest := Flat(chunks[..k])]
  {
    seq(|chunks| + 1, k requires 0 <= k <= |chunks| => files[dest := Flat(chunks[..k])])
  }

  // except Exception: tmp_path.unlink(missing_ok=True); raise
  function Cleanup(files: Files, tmp: Path, fails: bool, why: PrepareResult): Trace {
    if fails && tmp in files then Trace([], OsError) else Trace([files - {tmp}], why)
  }

  function Attempt(files: Files, out: Path, tmp: Path, expected: string, w: World, digest: Content -> string): Trace {
    match w.image
    case Unreachable => Cleanup(files, tmp, w.cleanupFails, NetworkError)
    case Streams(chunks, complete) =>
      var states := Written(files, tmp, chunks);
      var done := files[tmp := Flat(chunks)];
      var actual := digest(done[tmp]);
      var rest :=
        if !complete then Cleanup(done, tmp, w.cleanupFails, NetworkError)
        else if w.unreadable then Cleanup(done, tmp, w.cleanupFails, OsError)
        else if actual != expected then
          if w.unlinkFails then Cleanup(done, tmp, w.cleanupFails, OsError)
          else
            var again := Cleanup(done - {tmp}, tmp, w.cleanupFails, ChecksumMismatch(actual));
            Trace([done - {tmp}] + again.states, again.result)
        else if w.renameFails then Cleanup(done, tmp, w.cleanupFails, OsError)
        else Trace([(done - {tmp})[out := done[tmp]]], Installed);
      Trace(states + rest.states, rest.result)
  }

  const IMAGE_FILENAME := "noble-server-cloudimg-amd64.img"

  function Expected(w: World): Option<string> {
    if w.sums.None? then None else Extract(Lines(w.sums.value), IMAGE_FILENAME)
  }

  function Preparation(files: Files, out: Path, force: bool, w: World, digest: Content -> string): Trace {
    if out in files && !force then Trace([], AlreadyThere)
    else if w.sums.None? then Trace([], NetworkError)
    else if Expected(w).None? then Trace([], UnknownFile)
    else Attempt(files, out, TmpPath(out), Expected(w).value, w, digest)
  }

  // The disk, with every state it has been in.
  class Disk {
    var files: Files
    ghost var past: seq<Files>

    constructor (files: Files)
      ensures this.files == files && past == []
    {
      this.files := files;
      this.past := [];
    }

    method Become(files': Files)
      modifies this
      ensures files == files' && past == old(past) + [files']
    {
      files := files';
      past := past + [files'];
    }

    method Open(p: Path)
      modifies this
      ensures files == old(files)[p := []] && past == old(past) + [files]
    {
      Become(files[p := []]);
    }

    method Append(p: Path, chunk: Content)
      requires p in files
      modifies this
      ensures files == old(files)[p := old(files)[p] + chunk] && past == old(past) + [files]
    {
      Become(files[p := files[p] + chunk]);
    }

    // unlink(missing_ok=True)
    method Unlink(p: Path, fails: bool) returns (ok: bool)
      modifies this
      ensures ok <==> !(fails && p in old(files))
      ensures if ok then files == old(files) - {p} && past == old(past) + [files]
              else files == old(files) && past == old(past)
    {
      if fails && p in files { return false; }
      Become(files - {p});
      return true;
    }

    // atomic on one file system
    method Rename(from: Path, to: Path)
      requires from in files
      modifies this
      ensures files == (old(files) - {from})[to := old(files)[from]] && past == old(past) + [files]
    {
      Become((files - {from})[to := files[from]]);
    }
  }

  // _fetch_file
  method FetchFile(disk: Disk, image: Reply, dest: Path) returns (ok: bool)
    modifies disk
    ensures ok <==> image.Streams? && image.complete
    ensures image.Unreachable? ==> disk.files == old(disk.files) && disk.past == old(disk.past)
    ensures image.Streams? ==> disk.files == old(disk.files)[dest := Flat(image.chunks)]
                               && disk.past == old(disk.past) + Written(old(disk.files), dest, image.chunks)
  {
    if image.Unreachable? { return false; }
    var chunks := image.chunks;
    ghost var states := Written(disk.files, dest, chunks);
    disk.Open(dest);
    var k := 0;
    while k < |chunks|
      invariant 0 <= k <= |chunks|
      invariant disk.files == old(disk.files)[dest := Flat(chunks[..k])]
      invariant disk.past == old(disk.past) + states[..k + 1]
    {
      disk.Append(dest, chunks[k]);
      assert chunks[..k + 1][..k] == chunks[..k];
      k := k + 1;
      assert states[..k + 1] == states[..k] + [states[k]];
    }
    assert chunks[..k] == chunks && states[..k + 1] == states;
    return image.complete;
  }

  // The try block of prepare, with its cleanup.
  method Install(disk: Disk, out: Path, tmp: Path, expected: string, w: World, digest: Content -> string)
    returns (r: PrepareResult)
    modifies disk
    ensures r == Attempt(old(disk.files), out, tmp, expected, w, digest).result
    ensures disk.past == old(disk.past) + Attempt(old(disk.files), out, tmp, expected, w, digest).states
  {
    hide Flat, Written;
    var fetched := FetchFile(disk, w.image, tmp);
    if !fetched {
      r := NetworkError;
    } else if w.unreadable {
      r := OsError;
    } else {
      var actual := Sha256Of(disk.files[tmp], digest);
      if actual != expected {
        var removed := disk.Unlink(tmp, w.unlinkFails);
        r := if removed then ChecksumMismatch(actual) else OsError;
      } else if w.renameFails {
        r := OsError;
      } else {
        disk.Rename(tmp, out);
        return Installed;
      }
    }
    var cleaned := disk.Unlink(tmp, w.cleanupFails);
    if !cleaned { r := OsError; }
  }

  // prepare, up to the customisation
  method Prepare(disk: Disk, out: Path, force: bool, w: World, digest: Content -> string) returns (r: PrepareResult)
    modifies disk
    ensures r == Preparation(old(disk.files), out, force, w, digest).result
    ensures disk.past == old(disk.past) + Preparation(old(disk.files), out, force, w, digest).states
  {
    hide Lines, Extract, Attempt, TmpPath;
    if out in disk.files && !force { return AlreadyThere; }
    if w.sums.None? { return NetworkError; }
    var expected := ExtractSha256(w.sums.value, IMAGE_FILENAME);
    if expected.None? { return UnknownFile; }
    r := Install(disk, out, TmpPath(out), expected.value, w, digest);
  }

  // ----- every state is safe ---------------------------------------------------------------------

  // The output file is as before or has the expected digest; other files but the
  // temporary one are as before.
  ghost predicate Safe(before: Files, s: Files, out: Path, tmp: Path, expected: string, digest: Content -> string) {
    && (SameFile(before, s, out) || (out in s && digest(s[out]) == expected))
    && forall p :: p != out && p != tmp ==> SameFile(before, s, p)
  }

  ghost predicate SameFile(before: Files, s: Files, p: Path) {
    (p in s <==> p in before) && (p in s ==> s[p] == before[p])
  }

  ghost predicate AlwaysSafe(before: Files, t: Trace, out: Path, tmp: Path, expected: string,
                             digest: Content -> string) {
    forall k :: 0 <= k < |t.states| ==> Safe(before, t.states[k], out, tmp, expected, digest)
  }

  function Last(before: Files, t: Trace): Files { if t.states == [] then before else t.states[|t.states| - 1] }

  // With a temporary path of its own, a run cut at any point leaves the old
  // output or a verified one; a successful run leaves the verified image and no
  // temporary file; a run that raises leaves the old output, and no temporary
  // file unless removing it raised too.
  lemma VerifiedInstall(files: Files, out: Path, tmp: Path, expected: string, w: World, digest: Content -> string)
    requires tmp != out
    ensures var t := Attempt(files, out, tmp, expected, w, digest);
            var last := Last(files, t);
            && AlwaysSafe(files, t, out, tmp, expected, digest)
            && (t.result.Installed? ==> w.image.Streams? && w.image.complete && out in last &&
                                         last[out] == Flat(w.image.chunks)
                                        && digest(last[out]) == expected && tmp !in last)
            && (!t.result.Installed? ==> SameFile(files, last, out)
                                         && (tmp !in last || (w.cleanupFails && t.result.OsError?)))
  {
    hide Flat;
  }

  // The whole run: nothing happens before the digest is known, and what the
  // lookup found is what the installed file hashes to.
  lemma PreparedIsVerified(files: Files, out: Path, force: bool, w: World, digest: Content -> string)
    requires Suffix(out.name) != ".tmp"
    ensures var t := Preparation(files, out, force, w, digest);
            && (t.states != [] ==> Expected(w).Some? && AlwaysSafe(files, t, out, TmpPath(out), Expected(w).value,
                                                                   digest))
            && (t.result.Installed? ==> Expected(w).Some? && out in Last(files, t)
                                        && digest(Last(files, t)[out]) == Expected(w).value)
            && (out in files && !force ==> t == Trace([], AlreadyThere))
  {
    hide Attempt, Expected, AlwaysSafe, Suffix;
    TmpIsOut(out);
    if Expected(w).Some? { VerifiedInstall(files, out, TmpPath(out), Expected(w).value, w, digest); }
  }

  // The run goes past the test for an existing output.
  predicate Asked(files: Files, out: Path, force: bool) { force || out !in files }

  // The sums file arrived and lists the image.
  predicate Listed(w: World) {
    w.sums.Some? && Extract(Lines(w.sums.value), "noble-server-cloudimg-amd64.img").Some?
  }

  // The whole image arrived and could be read.
  predicate Readable(w: World) { w.image.Streams? && w.image.complete && !w.unreadable }

  // Its digest is the listed one.
  predicate Genuine(w: World, digest: Content -> string)
    requires Listed(w) && w.image.Streams?
  {
    digest(Flat(w.image.chunks)) == Extract(Lines(w.sums.value), "noble-server-cloudimg-amd64.img").value
  }

  // Removing the temporary file raises, which replaces the error under way.
  predicate CleanupRaises(files: Files, out: Path, w: World) {
    w.cleanupFails && (w.image.Streams? || TmpPath(out) in files)
  }

  // The image is installed exactly when the run was asked to, the sums file lists
  // the image, all of it arrived and could be read, its digest is the listed
  // one, and the rename succeeds. The disk then has the image as the output, no
  // temporary file, and everything else as before.
  lemma InstalledExactly(files: Files, out: Path, force: bool, w: World, digest: Content -> string)
    ensures var t := Preparation(files, out, force, w, digest);
            && (t.result.Installed? <==>
                Asked(files, out, force) && Listed(w) && Readable(w) && Genuine(w, digest) && !w.renameFails)
            && (t.result.Installed? ==> Last(files, t) == (files - {TmpPath(out)})[out := Flat(w.image.chunks)])
  {
    hide Lines, Extract, Flat, TmpPath;
  }

  // Every other ending, and the error it gives. Nothing is touched unless the
  // run was asked for and the image is listed; and a run that raises leaves the
  // disk without its temporary file unless removing that raised.
  lemma EndsExactly(files: Files, out: Path, force: bool, w: World, digest: Content -> string)
    ensures var t := Preparation(files, out, force, w, digest);
            var going := Asked(files, out, force) && Listed(w);
            && (t.result.AlreadyThere? <==> !Asked(files, out, force))
            && (t.result.UnknownFile? <==> Asked(files, out, force) && w.sums.Some? && !Listed(w))
            && (t.result.NetworkError? <==>
                Asked(files, out, force)
                && (w.sums.None?
                    || (Listed(w) && !(w.image.Streams? && w.image.complete) && !CleanupRaises(files, out, w))))
            && (t.result.ChecksumMismatch? <==>
                going && Readable(w) && !Genuine(w, digest) && !w.unlinkFails)
            && (t.result.ChecksumMismatch? ==> t.result.actual == digest(Flat(w.image.chunks)))
            && (t.result.OsError? <==>
                going && (if !(w.image.Streams? && w.image.complete) then CleanupRaises(files, out, w)
                          else w.unreadable || if Genuine(w, digest) then w.renameFails else w.unlinkFails))
            && (!going ==> t.states == [])
            && (going && !t.result.Installed? && !w.cleanupFails ==> Last(files, t) == files - {TmpPath(out)})
  {
    hide Lines, Extract, Flat, TmpPath;
  }

  // An output path that ends in ".tmp" is its own temporary file: a forced run
  // whose download fails verification replaces the old output and deletes it.
  lemma TmpSuffixLosesTheImage(files: Files, out: Path, sums: string, digest: Content -> string,
                               bad: Content) returns (w: World)
    requires Suffix(out.name) == ".tmp" && out in files && files[out] != bad
    requires Extract(Lines(sums), IMAGE_FILENAME).Some?
    requires digest(bad) != Extract(Lines(sums), IMAGE_FILENAME).value
    ensures w.sums == Some(sums) && w.image == Streams([bad], true)
    ensures var t := Preparation(files, out, true, w, digest);
            && t.result == ChecksumMismatch(digest(bad))
            && !AlwaysSafe(files, t, out, TmpPath(out), Expected(w).value, digest)
            && out !in Last(files, t)
  {
    hide Lines, Extract;
    TmpIsOut(out);
    w := World(Some(sums), Streams([bad], true), false, false, false, false);
    assert [bad][..1] == [bad] && [bad][..0] == [];
    assert Flat([bad]) == [] + bad == bad;
    var t := Preparation(files, out, true, w, digest);
    assert t == Attempt(files, out, out, Expected(w).value, w, digest);
    assert t.states[1] == files[out := bad];
    assert !Safe(files, t.states[1], out, out, Expected(w).value, digest);
  }

  // ----- customisation -------------------------------------------------------------------------------

  const INSTALL_ARG := "lldpd,chrony,ethtool"

  // The command that writes the key into cloud-init's configuration, without the
  // text around the key.
  const KEY_COMMAND := "mkdir -p "

  function KeyArgs(pubkey: Option<string>): seq<string> {
    if pubkey.Some? then ["--run-command", KEY_COMMAND + Strip(pubkey.value)] else []
  }

  function CustomizeArgs(image: string, pubkey: Option<string>): seq<string> {
    ["virt-customize", "-a", image, "--install", INSTALL_ARG, "--run-command", "apt-get clean"] + KeyArgs(pubkey)
  }

  // The comprehension keeps element i.
  predicate Kept(cmd: seq<string>, i: nat)
    requires i < |cmd|
  {
    cmd[i] != "--install" && cmd[i] != INSTALL_ARG && !(i > 0 && cmd[i - 1] == "--install")
  }

  function WithoutInstall(cmd: seq<string>): seq<string> {
    if cmd == [] then []
    else WithoutInstall(cmd[..|cmd| - 1]) + if Kept(cmd, |cmd| - 1) then [cmd[|cmd| - 1]] else []
  }

  lemma WithoutInstallSnoc(cmd: seq<string>, c: string)
    ensures WithoutInstall(cmd + [c]) == WithoutInstall(cmd) + if Kept(cmd + [c], |cmd|) then [c] else []
  {
  }

  // The fallback's list comprehension.
  method DropInstall(cmd: seq<string>) returns (kept: seq<string>)
    ensures kept == WithoutInstall(cmd)
  {
    hide Kept;
    kept := [];
    var i := 0;
    while i < |cmd|
      invariant 0 <= i <= |cmd| && kept == WithoutInstall(cmd[..i])
    {
      assert cmd[..i + 1] == cmd[..i] + [cmd[i]];
      WithoutInstallSnoc(cmd[..i], cmd[i]);
      KeptInPrefix(cmd, i);
      if Kept(cmd, i) { kept := kept + [cmd[i]]; }
      i := i + 1;
    }
    assert cmd[..|cmd|] == cmd;
  }

  lemma KeptInPrefix(cmd: seq<string>, i: nat)
    requires i < |cmd|
    ensures Kept(cmd[..i + 1], i) == Kept(cmd, i)
  {
  }

  datatype CustomizeResult = Skipped | Customized | CustomizeError

  // _run_virt_customize: exits gives the exit code of each command line
  method RunVirtCustomize(present: bool, image: string, pubkey: Option<string>, exits: seq<string> -> int)
    returns (r: CustomizeResult, issued: seq<seq<string>>)
    ensures !present ==> r.Skipped? && issued == []
    ensures present ==>
              var full := CustomizeArgs(image, pubkey);
              if exits(full) == 0 then r.Customized? && issued == [full]
              else issued == [full, WithoutInstall(full)] && (r.Customized? <==> exits(WithoutInstall(full)) == 0)
                   && (r.Customized? || r.CustomizeError?)
  {
    if !present { return Skipped, []; }
    var cmd := ["virt-customize", "-a", image, "--install", INSTALL_ARG, "--run-command", "apt-get clean"];
    if pubkey.Some? { cmd := cmd + ["--run-command", KEY_COMMAND + Strip(pubkey.value)]; }
    assert cmd == CustomizeArgs(image, pubkey);
    hide *;
    issued := [cmd];
    if exits(cmd) != 0 {
      var kept := DropInstall(cmd);
      issued := issued + [kept];
      if exits(kept) != 0 { return CustomizeError, issued; }
    }
    return Customized, issued;
  }

  function FallbackArgs(image: string, pubkey: Option<string>): seq<string> {
    ["virt-customize", "-a", image, "--run-command", "apt-get clean"] + KeyArgs(pubkey)
  }

  // The full command is the fallback with the package list after the image.
  lemma FullCommand(image: string, pubkey: Option<string>)
    ensures CustomizeArgs(image, pubkey) ==
            ["virt-customize", "-a", image] + ["--install", "lldpd,chrony,ethtool"] + FallbackArgs(image, pubkey)[3..]
    ensures pubkey.Some? ==>
              FallbackArgs(image, pubkey)[|FallbackArgs(image, pubkey)| - 2..] ==
              ["--run-command", "mkdir -p " + Strip(pubkey.value)]
    ensures pubkey.None? ==> FallbackArgs(image, pubkey) == FallbackArgs(image, Some(""))[..5]
  {
    hide Strip;
  }

  lemma InstallWords()
    ensures "virt-customize" != "--install" && "virt-customize" != INSTALL_ARG &&
            "-a" != "--install" && "-a" != INSTALL_ARG
    ensures "--run-command" != "--install" && "--run-command" != INSTALL_ARG
    ensures "apt-get clean" != "--install" && "apt-get clean" != INSTALL_ARG && INSTALL_ARG != "--install"
  {
  }

  lemma KeyCommandKept(key: string)
    ensures KEY_COMMAND + key != "--install" && KEY_COMMAND + key != INSTALL_ARG
  {
    assert (KEY_COMMAND + key)[0] == 'm' && "--install"[0] == '-' && INSTALL_ARG[0] == 'l';
  }

  lemma Filter(cmd: seq<string>, c: string, keep: bool)
    requires Kept(cmd + [c], |cmd|) == keep
    ensures WithoutInstall(cmd + [c]) == WithoutInstall(cmd) + if keep then [c] else []
  {
  }

  // Whatever follows --install goes with it.
  lemma PairDropped(cmd: seq<string>, argument: string)
    ensures WithoutInstall(cmd + ["--install", argument]) == WithoutInstall(cmd)
  {
    hide WithoutInstall;
    assert cmd + ["--install", argument] == cmd + ["--install"] + [argument];
    Filter(cmd, "--install", false);
    Filter(cmd + ["--install"], argument, false);
  }

  lemma FilterStart(image: string)
    ensures WithoutInstall(["virt-customize", "-a", image]) ==
            ["virt-customize", "-a"] + (if image == "--install" || image == INSTALL_ARG then [] else [image])
  {
    InstallWords();
    hide WithoutInstall;
    var a, b := ["virt-customize"], ["virt-customize", "-a"];
    assert [] + ["virt-customize"] == a && a + ["-a"] == b && b + [image] == ["virt-customize", "-a", image];
    FilterNothing();
    Filter([], "virt-customize", true);
    Filter(a, "-a", true);
    Filter(b, image, image != "--install" && image != INSTALL_ARG);
  }

  lemma FilterNothing()
    ensures WithoutInstall([]) == []
  {
  }

  lemma Prefiltered(image: string)
    ensures WithoutInstall(["virt-customize", "-a", image, "--install", INSTALL_ARG,
                            "--run-command", "apt-get clean"]) ==
            ["virt-customize", "-a"] + (if image == "--install" || image == INSTALL_ARG then [] else [image])
            + ["--run-command", "apt-get clean"]
  {
    FilterStart(image);
    InstallWords();
    hide WithoutInstall;
    var c, d := ["virt-customize", "-a", image], ["virt-customize", "-a", image, "--install"];
    var e, f := d + [INSTALL_ARG], d + [INSTALL_ARG, "--run-command"];
    assert c + ["--install"] == d && e + ["--run-command"] == f;
    assert f + ["apt-get clean"] ==
           ["virt-customize", "-a", image, "--install", INSTALL_ARG, "--run-command", "apt-get clean"];
    Filter(c, "--install", false);
    Filter(d, INSTALL_ARG, false);
    Filter(e, "--run-command", true);
    Filter(f, "apt-get clean", true);
  }

  // The fallback is the command without its --install pair, key injection kept,
  // exactly when the image path is neither of the two filtered words; otherwise
  // -a loses its argument.
  lemma FallbackKeepsTheRest(image: string, pubkey: Option<string>)
    ensures WithoutInstall(CustomizeArgs(image, pubkey)) == FallbackArgs(image, pubkey)
            <==> image != "--install" && image != INSTALL_ARG
  {
    hide Kept, Strip;
    Prefiltered(image);
    FilterTail(image, pubkey);
    var good := ["virt-customize", "-a", image, "--run-command", "apt-get clean"];
    var bad := ["virt-customize", "-a", "--run-command", "apt-get clean"];
    assert |good + KeyArgs(pubkey)| != |bad + KeyArgs(pubkey)|;
    assert ["virt-customize", "-a"] + [image] + ["--run-command", "apt-get clean"] == good;
    assert ["virt-customize", "-a"] + [] + ["--run-command", "apt-get clean"] == bad;
  }

  lemma FilterTail(image: string, pubkey: Option<string>)
    ensures var head := ["virt-customize", "-a", image, "--install", INSTALL_ARG, "--run-command", "apt-get clean"];
            WithoutInstall(CustomizeArgs(image, pubkey)) == WithoutInstall(head) + KeyArgs(pubkey)
  {
    hide Strip;
    InstallWords();
    var head := ["virt-customize", "-a", image, "--install", INSTALL_ARG, "--run-command", "apt-get clean"];
    if pubkey.Some? {
      var key := KEY_COMMAND + Strip(pubkey.value);
      KeyCommandKept(Strip(pubkey.value));
      WithoutInstallSnoc(head, "--run-command");
      WithoutInstallSnoc(head + ["--run-command"], key);
      assert CustomizeArgs(image, pubkey) == head + ["--run-command"] + [key];
    } else {
      assert CustomizeArgs(image, pubkey) == head;
    }
  }
}
