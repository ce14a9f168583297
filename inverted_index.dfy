/**
 * The inverted-index builder: the manifest of document ids and URLs, the
 * lemma → documents postings gathered from the per-document lemma files,
 * and the textual layout the postings are saved in.
 *
 * Files are given as their lines; a directory is a map from file name to
 * the lines of that file.
 */
module InvertedIndex {
  import opened Wrappers
  import opened Text
  import opened Order

  // ---------------------------------------------------------------------
  // load_index

  /** What one manifest line contributes: nothing, or an id with its URL. */
  datatype Entry = Skip | Record(id: int, url: string)

  /**
   * One line of the manifest, split at its first comma after `strip()`;
   * Err where `int()` rejects the part before the comma. A line is ignored
   * exactly when it has no comma.
   */
  function ParseEntry(line: string): (r: Result<Entry>)
    ensures r == Ok(Skip) <==> ',' !in Strip(line)
  {
    match SplitFirst(Strip(line), ',')
    case None => Ok(Skip)
    case Some(p) =>
      match ParseInt(p.0)
      case None => Err("ValueError")
      case Some(n) => Ok(Record(n, p.1))
  }

  /** A record line is an integer, the first comma, then the URL, which may hold further commas. */
  lemma EntryParts(line: string, n: int, url: string)
    requires ParseEntry(line) == Ok(Record(n, url))
    ensures exists head :: ParseInt(head) == Some(n) && ',' !in head && Strip(line) == head + [','] + url
  {
    var p := SplitFirst(Strip(line), ',').value;
    assert ParseInt(p.0) == Some(n);
  }

  /** `str(n) + "," + url` reads back as that record, whatever commas the URL holds. */
  lemma EntryRoundTrip(n: int, url: string)
    requires url == [] || !IsSpace(url[|url| - 1])
    ensures ParseEntry(IntToStr(n) + "," + url) == Ok(Record(n, url))
  {
    var h := IntToStr(n);
    var line := h + "," + url;
    StripRecordLine(h, url);
    NoCommaInInt(n);
    SplitFirstAt(h, url, ',');
    ParseIntOfIntToStr(n);
    EntryOf(line, h, url, n);
  }

  lemma NoCommaInInt(n: int)
    ensures ',' !in IntToStr(n)
  {
    var h := IntToStr(n);
    assert forall i :: 0 <= i < |h| ==> h[i] == '-' || IsDigit(h[i]);
  }

  lemma EntryOf(line: string, h: string, url: string, n: int)
    requires Strip(line) == line && SplitFirst(line, ',') == Some((h, url)) && ParseInt(h) == Some(n)
    ensures ParseEntry(line) == Ok(Record(n, url))
  {
  }

  lemma StripRecordLine(h: string, url: string)
    requires h != [] && !IsSpace(h[0])
    requires url == [] || !IsSpace(url[|url| - 1])
    ensures Strip(h + "," + url) == h + "," + url
  {
    var line := h + "," + url;
    assert line[0] == h[0];
    assert line[|line| - 1] == if url == [] then ',' else url[|url| - 1];
    StripUnchanged(line);
  }

  lemma {:induction false} SplitFirstAt(a: string, b: string, c: char)
    requires c !in a
    ensures SplitFirst(a + [c] + b, c) == Some((a, b))
    decreases |a|
  {
    if a == [] {
      assert a + [c] + b == [c] + b;
    } else {
      assert (a + [c] + b)[1..] == a[1..] + [c] + b;
      SplitFirstAt(a[1..], b, c);
      assert [a[0]] + a[1..] == a;
    }
  }

  /** What each line of the manifest says. */
  function Parsed(lines: seq<string>): (es: seq<Result<Entry>>)
    ensures |es| == |lines| && forall k :: 0 <= k < |lines| ==> es[k] == ParseEntry(lines[k])
  {
    seq(|lines|, k requires 0 <= k < |lines| => ParseEntry(lines[k]))
  }

  /** One line's effect on the dictionary: a failure ends the load, a record sets its id. */
  function Extend(acc: Result<map<int, string>>, e: Result<Entry>): Result<map<int, string>> {
    match acc
    case Err(why) => Err(why)
    case Ok(m) =>
      match e
      case Err(why) => Err(why)
      case Ok(Skip) => Ok(m)
      case Ok(Record(n, url)) => Ok(m[n := url])
  }

  /** The dictionary built from the parsed lines, in order. */
  function Load(es: seq<Result<Entry>>): Result<map<int, string>>
    decreases |es|
  {
    if es == [] then Ok(map[]) else Extend(Load(es[..|es| - 1]), es[|es| - 1])
  }

  /** What `load_index` returns for the lines of the manifest file. */
  function Manifest(lines: seq<string>): Result<map<int, string>> {
    Load(Parsed(lines))
  }

  lemma LoadStep(es: seq<Result<Entry>>, i: nat)
    requires i < |es|
    ensures Load(es[..i + 1]) == Extend(Load(es[..i]), es[i])
  {
    assert es[..i + 1][..i] == es[..i];
  }

  /** `load_index` over the lines of the manifest file. */
  method LoadIndex(lines: seq<string>) returns (r: Result<map<int, string>>)
    ensures r == Manifest(lines)
  {
    var docIds: map<int, string> := map[];
    for i := 0 to |lines|
      invariant Load(Parsed(lines)[..i]) == Ok(docIds)
    {
      match ParseEntry(lines[i]) {
        case Err(why) =>
          LoadLineFails(lines, i, why);
          return Err(why);
        case Ok(Skip) =>
          LoadLineStep(lines, i, docIds, Skip);
        case Ok(Record(n, url)) =>
          LoadLineStep(lines, i, docIds, Record(n, url));
          docIds := docIds[n := url];
      }
    }
    assert Parsed(lines)[..|lines|] == Parsed(lines);
    return Ok(docIds);
  }

  lemma LoadLineStep(lines: seq<string>, i: nat, m: map<int, string>, e: Entry)
    requires i < |lines| && Load(Parsed(lines)[..i]) == Ok(m) && ParseEntry(lines[i]) == Ok(e)
    ensures Load(Parsed(lines)[..i + 1]) == Extend(Ok(m), Ok(e))
  {
    LoadStep(Parsed(lines), i);
  }

  lemma LoadLineFails(lines: seq<string>, i: nat, why: string)
    requires i < |lines| && Load(Parsed(lines)[..i]).Ok? && ParseEntry(lines[i]) == Err(why)
    ensures Manifest(lines) == Err(why)
  {
    var es := Parsed(lines);
    LoadStep(es, i);
    LoadErrStays(es, i + 1);
  }

  /** A line that makes `int()` raise ends the whole load. */
  lemma {:induction false} LoadErrStays(es: seq<Result<Entry>>, k: nat)
    requires k <= |es| && Load(es[..k]).Err?
    ensures Load(es) == Load(es[..k])
    decreases |es| - k
  {
    if k == |es| {
      assert es[..k] == es;
    } else {
      LoadStep(es, k);
      LoadErrStays(es, k + 1);
    }
  }

  /** Entry `e` is a record for `n`. */
  predicate Names(e: Result<Entry>, n: int) {
    e.Ok? && e.value.Record? && e.value.id == n
  }

  /** The load fails exactly when some line has a comma but no integer before it. */
  lemma {:induction false} LoadFails(es: seq<Result<Entry>>)
    ensures Load(es).Err? <==> exists k :: 0 <= k < |es| && es[k].Err?
    decreases |es|
  {
    if es != [] {
      var init := es[..|es| - 1];
      LoadFails(init);
      assert forall k :: 0 <= k < |init| ==> init[k] == es[k];
    }
  }

  /** The ids loaded are exactly the ids some record line names. */
  lemma {:induction false} LoadKeys(es: seq<Result<Entry>>, n: int)
    requires Load(es).Ok?
    ensures n in Load(es).value <==> exists k :: 0 <= k < |es| && Names(es[k], n)
    decreases |es|
  {
    if es != [] {
      var init := es[..|es| - 1];
      LoadKeys(init, n);
      assert forall k :: 0 <= k < |init| ==> init[k] == es[k];
    }
  }

  /** An id maps to the URL of the last line that names it. */
  lemma {:induction false} LoadLastWins(es: seq<Result<Entry>>, k: nat, n: int)
    requires Load(es).Ok? && k < |es| && Names(es[k], n)
    requires forall j :: k < j < |es| ==> !Names(es[j], n)
    ensures n in Load(es).value && Load(es).value[n] == es[k].value.url
    decreases |es|
  {
    var init := es[..|es| - 1];
    if k < |es| - 1 {
      LoadLastWins(init, k, n);
    }
  }

  /** `load_index` fails exactly when some line has a comma but no integer before it. */
  lemma ManifestFails(lines: seq<string>)
    ensures Manifest(lines).Err? <==> exists k :: 0 <= k < |lines| && ParseEntry(lines[k]).Err?
  {
    LoadFails(Parsed(lines));
  }

  /** The ids loaded are exactly those of the record lines. */
  lemma ManifestKeys(lines: seq<string>, n: int)
    requires Manifest(lines).Ok?
    ensures n in Manifest(lines).value <==> exists k :: 0 <= k < |lines| && Names(ParseEntry(lines[k]), n)
  {
    LoadKeys(Parsed(lines), n);
  }

  /** Each id maps to the URL of the last record line for it. */
  lemma ManifestLastWins(lines: seq<string>, k: nat, n: int)
    requires Manifest(lines).Ok? && k < |lines| && Names(ParseEntry(lines[k]), n)
    requires forall j :: k < j < |lines| ==> !Names(ParseEntry(lines[j]), n)
    ensures n in Manifest(lines).value && Manifest(lines).value[n] == ParseEntry(lines[k]).value.url
  {
    LoadLastWins(Parsed(lines), k, n);
  }

  // ---------------------------------------------------------------------
  // build_inverted_index

  /** Postings while they are gathered: `defaultdict(set)`. */
  type Gathered = map<string, set<int>>

  /** Lemma `word` is posted for `doc`. */
  predicate In(m: Gathered, word: string, doc: int) {
    word in m && doc in m[word]
  }

  /** No lemma maps to an empty set. */
  predicate NoneEmpty(m: Gathered) {
    forall l :: l in m ==> m[l] != {}
  }

  /**
   * The document a file of the lemmas directory is about: `<id>-lemmas.txt`
   * with `int()` of the text before the first `-`; None for a file the loop skips.
   */
  function FileDoc(name: string): Option<int> {
    if EndsWith(name, "-lemmas.txt") then ParseInt(Split(name, '-')[0]) else None
  }

  /** The file that `save_lemmas` writes for document `n` is read back as document `n`. */
  lemma FileDocOf(n: nat)
    ensures FileDoc(NatToStr(n) + "-lemmas.txt") == Some(n)
  {
    var d, name := NatToStr(n), NatToStr(n) + "-lemmas.txt";
    assert EndsWith(name, "-lemmas.txt") by {
      assert name[|name| - 11..] == "-lemmas.txt";
    }
    assert '-' !in d by {
      assert forall i :: 0 <= i < |d| ==> IsDigit(d[i]);
    }
    assert name == d + ['-'] + "lemmas.txt";
    SplitHead(d, '-', "lemmas.txt");
    ParseIntOfIntToStr(n);
  }

  lemma {:induction false} SplitHead(a: string, c: char, b: string)
    requires c !in a
    ensures Split(a + [c] + b, c)[0] == a
    decreases |a|
  {
    if a == [] {
      assert a + [c] + b == [c] + b;
    } else {
      assert (a + [c] + b)[1..] == a[1..] + [c] + b;
      SplitHead(a[1..], c, b);
      assert [a[0]] + a[1..] == a;
    }
  }

  /** `inverted_index[lemma].add(doc)` */
  function Post(m: Gathered, word: string, doc: int): Gathered {
    m[word := (if word in m then m[word] else {}) + {doc}]
  }

  /** One line of a lemma file: its first word is posted for `doc`; a blank line raises. */
  function AddFirst(acc: Result<Gathered>, doc: int, f: Option<string>): Result<Gathered> {
    match acc
    case Err(why) => Err(why)
    case Ok(m) =>
      match f
      case None => Err("IndexError")
      case Some(l) => Ok(Post(m, l, doc))
  }

  /** The lines of one lemma file, in order. */
  function AddFirsts(m: Gathered, doc: int, fs: seq<Option<string>>): Result<Gathered>
    decreases |fs|
  {
    if fs == [] then Ok(m) else AddFirst(AddFirsts(m, doc, fs[..|fs| - 1]), doc, fs[|fs| - 1])
  }

  /** One file of the directory: skipped unless it is a lemma file (or not in the directory at all). */
  function AddFile(acc: Result<Gathered>, files: map<string, seq<string>>, name: string): Result<Gathered> {
    match acc
    case Err(why) => Err(why)
    case Ok(m) =>
      match FileDoc(name)
      case None => Ok(m)
      case Some(doc) => if name in files then AddFirsts(m, doc, Firsts(files[name])) else Ok(m)
  }

  /** The files of the directory, in the given order. */
  function AddFiles(files: map<string, seq<string>>, names: seq<string>): Result<Gathered>
    decreases |names|
  {
    if names == [] then Ok(map[]) else AddFile(AddFiles(files, names[..|names| - 1]), files, names[|names| - 1])
  }

  /** `{k: sorted(list(v)) for k, v in inverted_index.items()}` */
  function Finish(m: Gathered): map<string, seq<int>> {
    map l | l in m :: SortedSet(m[l])
  }

  /** What `build_inverted_index` returns for a directory. */
  function InvertedIndexOf(files: map<string, seq<string>>): Result<map<string, seq<int>>> {
    IndexOfListing(files, SortedStrSet(files.Keys))
  }

  /** `build_inverted_index` over a directory listing. */
  method BuildInvertedIndex(files: map<string, seq<string>>) returns (r: Result<map<string, seq<int>>>)
    ensures r == InvertedIndexOf(files)
  {
    r := BuildFrom(files, SortedStrSet(files.Keys));
  }

  /** The postings for the files of a listing, visited in the listing's order. */
  function IndexOfListing(files: map<string, seq<string>>, names: seq<string>): Result<map<string, seq<int>>> {
    match AddFiles(files, names)
    case Err(why) => Err(why)
    case Ok(m) => Ok(Finish(m))
  }

  /** The loops of `build_inverted_index` over a listing of the directory. */
  method BuildFrom(files: map<string, seq<string>>, names: seq<string>) returns (r: Result<map<string, seq<int>>>)
    requires forall k :: 0 <= k < |names| ==> names[k] in files
    ensures r == IndexOfListing(files, names)
  {
    var index: Gathered := map[];
    for i := 0 to |names|
      invariant AddFiles(files, names[..i]) == Ok(index)
    {
      FilesStep(files, names, i);
      var added := VisitFile(index, files, names[i]);
      match added {
        case Err(why) =>
          FilesErrStays(files, names, i + 1);
          assert names[..|names|] == names;
          return Err(why);
        case Ok(next) =>
          index := next;
      }
    }
    assert names[..|names|] == names;
    r := Ok(Finish(index));
  }

  /** The body of the loop over the directory: skip the file, or read a lemma file. */
  method VisitFile(index: Gathered, files: map<string, seq<string>>, name: string) returns (r: Result<Gathered>)
    requires name in files
    ensures r == AddFile(Ok(index), files, name)
  {
    if !EndsWith(name, "-lemmas.txt") {
      return Ok(index);
    }
    match ParseInt(Split(name, '-')[0]) {
      case None =>
        return Ok(index);
      case Some(doc) =>
        r := ReadLemmaFile(index, doc, files[name]);
    }
  }

  /** The inner loop of `build_inverted_index`: the lines of one lemma file. */
  method ReadLemmaFile(start: Gathered, doc: int, lines: seq<string>) returns (r: Result<Gathered>)
    ensures r == AddFirsts(start, doc, Firsts(lines))
  {
    var index := start;
    for j := 0 to |lines|
      invariant AddFirsts(start, doc, Firsts(lines)[..j]) == Ok(index)
    {
      match FirstField(lines[j]) {
        case None =>
          ReadLemmaFails(start, doc, lines, j);
          return Err("IndexError");
        case Some(word) =>
          ReadLemmaStep(start, doc, lines, j, index, word);
          index := index[word := (if word in index then index[word] else {}) + {doc}];
      }
    }
    assert Firsts(lines)[..|lines|] == Firsts(lines);
    return Ok(index);
  }

  lemma ReadLemmaStep(start: Gathered, doc: int, lines: seq<string>, j: nat, index: Gathered, word: string)
    requires j < |lines| && AddFirsts(start, doc, Firsts(lines)[..j]) == Ok(index)
    requires FirstField(lines[j]) == Some(word)
    ensures AddFirsts(start, doc, Firsts(lines)[..j + 1]) == Ok(Post(index, word, doc))
  {
    FirstsStep(start, doc, Firsts(lines), j);
  }

  lemma ReadLemmaFails(start: Gathered, doc: int, lines: seq<string>, j: nat)
    requires j < |lines| && AddFirsts(start, doc, Firsts(lines)[..j]).Ok?
    requires FirstField(lines[j]).None?
    ensures AddFirsts(start, doc, Firsts(lines)) == Err("IndexError")
  {
    var fs := Firsts(lines);
    FirstsStep(start, doc, fs, j);
    FirstsErrStays(start, doc, fs, j + 1);
  }

  lemma FilesStep(files: map<string, seq<string>>, names: seq<string>, i: nat)
    requires i < |names|
    ensures AddFiles(files, names[..i + 1]) == AddFile(AddFiles(files, names[..i]), files, names[i])
  {
    assert names[..i + 1][..i] == names[..i];
  }

  lemma FirstsStep(m: Gathered, doc: int, fs: seq<Option<string>>, j: nat)
    requires j < |fs|
    ensures AddFirsts(m, doc, fs[..j + 1]) == AddFirst(AddFirsts(m, doc, fs[..j]), doc, fs[j])
  {
    assert fs[..j + 1][..j] == fs[..j];
  }

  /** A blank line in a lemma file ends the whole build. */
  lemma {:induction false} FilesErrStays(files: map<string, seq<string>>, names: seq<string>, k: nat)
    requires k <= |names| && AddFiles(files, names[..k]).Err?
    ensures AddFiles(files, names) == AddFiles(files, names[..k])
    decreases |names| - k
  {
    if k == |names| {
      assert names[..k] == names;
    } else {
      FilesStep(files, names, k);
      FilesErrStays(files, names, k + 1);
    }
  }

  lemma {:induction false} FirstsErrStays(m: Gathered, doc: int, fs: seq<Option<string>>, k: nat)
    requires k <= |fs| && AddFirsts(m, doc, fs[..k]).Err?
    ensures AddFirsts(m, doc, fs) == AddFirsts(m, doc, fs[..k])
    decreases |fs| - k
  {
    if k == |fs| {
      assert fs[..k] == fs;
    } else {
      FirstsStep(m, doc, fs, k);
      FirstsErrStays(m, doc, fs, k + 1);
    }
  }

  // ---------------------------------------------------------------------
  // What the postings say

  /** File `name` is the lemma file of `doc` and one of its lines starts with `word`. */
  predicate Contributes(files: map<string, seq<string>>, name: string, word: string, doc: int) {
    name in files && FileDoc(name) == Some(doc) && Some(word) in Firsts(files[name])
  }

  /** File `name` is a lemma file with a blank line, on which `split()[0]` raises. */
  predicate Broken(files: map<string, seq<string>>, name: string) {
    name in files && FileDoc(name).Some? && None in Firsts(files[name])
  }

  /** Reading one lemma file posts its document for exactly the first words of its lines. */
  lemma {:induction false} AddFirstsPosts(m: Gathered, doc: int, fs: seq<Option<string>>, word: string, d: int)
    requires AddFirsts(m, doc, fs).Ok?
    ensures In(AddFirsts(m, doc, fs).value, word, d) <==> In(m, word, d) || (d == doc && Some(word) in fs)
    decreases |fs|
  {
    if fs != [] {
      var init := fs[..|fs| - 1];
      AddFirstsPosts(m, doc, init, word, d);
      assert fs == init + [fs[|fs| - 1]];
    }
  }

  /** Reading one lemma file fails exactly when one of its lines is blank. */
  lemma {:induction false} AddFirstsFails(m: Gathered, doc: int, fs: seq<Option<string>>)
    ensures AddFirsts(m, doc, fs).Err? <==> None in fs
    decreases |fs|
  {
    if fs != [] {
      var init := fs[..|fs| - 1];
      AddFirstsFails(m, doc, init);
      assert fs == init + [fs[|fs| - 1]];
    }
  }

  /** Reading a lemma file never leaves a lemma with no documents. */
  lemma {:induction false} AddFirstsNoneEmpty(m: Gathered, doc: int, fs: seq<Option<string>>)
    requires NoneEmpty(m) && AddFirsts(m, doc, fs).Ok?
    ensures NoneEmpty(AddFirsts(m, doc, fs).value)
    decreases |fs|
  {
    if fs != [] {
      AddFirstsNoneEmpty(m, doc, fs[..|fs| - 1]);
    }
  }

  /** After the directory loop, `d` is in the set of `word` exactly when some file contributes the pair. */
  lemma {:induction false} AddFilesPosts(files: map<string, seq<string>>, names: seq<string>, word: string, d: int)
    requires AddFiles(files, names).Ok?
    ensures In(AddFiles(files, names).value, word, d) <==>
            exists k :: 0 <= k < |names| && Contributes(files, names[k], word, d)
    decreases |names|
  {
    if names != [] {
      var init, last := names[..|names| - 1], names[|names| - 1];
      AddFilesPosts(files, init, word, d);
      var m := AddFiles(files, init).value;
      assert In(AddFiles(files, names).value, word, d) <==> In(m, word, d) || Contributes(files, last, word, d) by {
        match FileDoc(last)
        case None =>
        case Some(doc) =>
          if last in files {
            AddFirstsPosts(m, doc, Firsts(files[last]), word, d);
          }
      }
      SomeIndexOfLast(names, init, (name: string) => Contributes(files, name, word, d));
    }
  }

  /** Some element of `s` satisfies `p` exactly when some element before the last or the last does. */
  lemma SomeIndexOfLast<T>(s: seq<T>, init: seq<T>, p: T -> bool)
    requires s != [] && init == s[..|s| - 1]
    ensures (exists k :: 0 <= k < |s| && p(s[k])) <==>
            (exists k :: 0 <= k < |init| && p(init[k])) || p(s[|s| - 1])
  {
    if exists k :: 0 <= k < |s| && p(s[k]) {
      var k :| 0 <= k < |s| && p(s[k]);
      if k < |s| - 1 {
        assert init[k] == s[k];
      }
    }
    if exists k :: 0 <= k < |s| - 1 && p(init[k]) {
      var k :| 0 <= k < |s| - 1 && p(init[k]);
      assert s[k] == init[k];
    }
  }

  /** The directory loop fails exactly when some lemma file of the listing has a blank line. */
  lemma {:induction false} AddFilesFails(files: map<string, seq<string>>, names: seq<string>)
    ensures AddFiles(files, names).Err? <==> exists k :: 0 <= k < |names| && Broken(files, names[k])
    decreases |names|
  {
    if names != [] {
      var init, last := names[..|names| - 1], names[|names| - 1];
      AddFilesFails(files, init);
      assert AddFiles(files, names).Err? <==> AddFiles(files, init).Err? || Broken(files, last) by {
        if AddFiles(files, init).Ok? {
          match FileDoc(last)
          case None =>
          case Some(doc) =>
            if last in files {
              AddFirstsFails(AddFiles(files, init).value, doc, Firsts(files[last]));
            }
        }
      }
      SomeIndexOfLast(names, init, (name: string) => Broken(files, name));
    }
  }

  /** No lemma ends the directory loop with an empty set of documents. */
  lemma {:induction false} AddFilesNoneEmpty(files: map<string, seq<string>>, names: seq<string>)
    requires AddFiles(files, names).Ok?
    ensures NoneEmpty(AddFiles(files, names).value)
    decreases |names|
  {
    if names != [] {
      var init, last := names[..|names| - 1], names[|names| - 1];
      AddFilesNoneEmpty(files, init);
      match FileDoc(last)
      case None =>
      case Some(doc) =>
        if last in files {
          AddFirstsNoneEmpty(AddFiles(files, init).value, doc, Firsts(files[last]));
        }
    }
  }

  /** Two gathered dictionaries without empty sets that hold the same pairs are equal. */
  lemma SamePairs(m1: Gathered, m2: Gathered)
    requires NoneEmpty(m1) && NoneEmpty(m2)
    requires forall w, d :: In(m1, w, d) <==> In(m2, w, d)
    ensures m1 == m2
  {
    forall w | w in m1 ensures w in m2 && m1[w] == m2[w] {
      var d := Pick(m1[w]);
      assert In(m1, w, d);
      forall e ensures e in m1[w] <==> e in m2[w] {
        assert In(m1, w, e) <==> In(m2, w, e);
      }
    }
    forall w | w in m2 ensures w in m1 {
      var d := Pick(m2[w]);
      assert In(m2, w, d);
    }
  }

  /**
   * The postings of a listing. `d` is in the posting of `word` exactly when
   * some file of the listing is the lemma file of `d` and has a line whose
   * first word is `word`; every posting is non-empty and strictly ascending.
   */
  lemma Postings(files: map<string, seq<string>>, names: seq<string>, word: string, d: int)
    requires IndexOfListing(files, names).Ok?
    ensures var index := IndexOfListing(files, names).value;
            (word in index && d in index[word]) <==> exists k :: 0 <= k < |names| && Contributes(files, names[k], word, d)
    ensures var index := IndexOfListing(files, names).value;
            word in index ==> index[word] != [] && Increasing(index[word])
  {
    var m := AddFiles(files, names).value;
    AddFilesPosts(files, names, word, d);
    AddFilesNoneEmpty(files, names);
    if word in m {
      assert |SortedSet(m[word])| == |m[word]| > 0;
    }
  }

  /** `build_inverted_index` fails exactly when some lemma file has a blank line. */
  lemma IndexFails(files: map<string, seq<string>>, names: seq<string>)
    ensures IndexOfListing(files, names).Err? <==> exists k :: 0 <= k < |names| && Broken(files, names[k])
  {
    AddFilesFails(files, names);
  }

  /**
   * The order in which the directory is listed does not matter: two listings
   * of the same files give the same result.
   */
  lemma ListingOrderIrrelevant(files: map<string, seq<string>>, a: seq<string>, b: seq<string>)
    requires forall name :: name in a <==> name in b
    ensures IndexOfListing(files, a) == IndexOfListing(files, b)
  {
    AddFilesFails(files, a);
    AddFilesFails(files, b);
    assert (exists k :: 0 <= k < |a| && Broken(files, a[k])) <==> (exists k :: 0 <= k < |b| && Broken(files, b[k])) by {
      SameElements(a, b, (name: string) => Broken(files, name));
    }
    if AddFiles(files, a).Ok? {
      var ma, mb := AddFiles(files, a).value, AddFiles(files, b).value;
      AddFilesNoneEmpty(files, a);
      AddFilesNoneEmpty(files, b);
      forall w, d ensures In(ma, w, d) <==> In(mb, w, d) {
        AddFilesPosts(files, a, w, d);
        AddFilesPosts(files, b, w, d);
        SameElements(a, b, (name: string) => Contributes(files, name, w, d));
      }
      SamePairs(ma, mb);
    } else {
      assert AddFiles(files, a) == Err("IndexError") by {
        ErrIsIndexError(files, a);
      }
      ErrIsIndexError(files, b);
    }
  }

  /** Two sequences with the same elements have an element satisfying `p` alike. */
  lemma SameElements<T>(a: seq<T>, b: seq<T>, p: T -> bool)
    requires forall x :: x in a <==> x in b
    ensures (exists k :: 0 <= k < |a| && p(a[k])) <==> (exists k :: 0 <= k < |b| && p(b[k]))
  {
    if exists k :: 0 <= k < |a| && p(a[k]) {
      var k :| 0 <= k < |a| && p(a[k]);
      assert a[k] in b;
      var j :| 0 <= j < |b| && b[j] == a[k];
    }
    if exists k :: 0 <= k < |b| && p(b[k]) {
      var k :| 0 <= k < |b| && p(b[k]);
      assert b[k] in a;
      var j :| 0 <= j < |a| && a[j] == b[k];
    }
  }

  /** The only error the directory loop raises is IndexError. */
  lemma {:induction false} ErrIsIndexError(files: map<string, seq<string>>, names: seq<string>)
    ensures AddFiles(files, names).Err? ==> AddFiles(files, names) == Err("IndexError")
    decreases |names|
  {
    if names != [] {
      var init, last := names[..|names| - 1], names[|names| - 1];
      ErrIsIndexError(files, init);
      match FileDoc(last)
      case None =>
      case Some(doc) =>
        if last in files && AddFiles(files, init).Ok? {
          FirstsErrIsIndexError(AddFiles(files, init).value, doc, Firsts(files[last]));
        }
    }
  }

  lemma {:induction false} FirstsErrIsIndexError(m: Gathered, doc: int, fs: seq<Option<string>>)
    ensures AddFirsts(m, doc, fs).Err? ==> AddFirsts(m, doc, fs) == Err("IndexError")
    decreases |fs|
  {
    if fs != [] {
      FirstsErrIsIndexError(m, doc, fs[..|fs| - 1]);
    }
  }

  // ---------------------------------------------------------------------
  // save_inverted_index

  /** `str(i)` for each id. */
  function IdStrings(ids: seq<int>): (r: seq<string>)
    ensures |r| == |ids| && forall k :: 0 <= k < |r| ==> r[k] == IntToStr(ids[k])
  {
    seq(|ids|, k requires 0 <= k < |ids| => IntToStr(ids[k]))
  }

  /** `', '.join(str(doc_id) for doc_id in sorted(ids))` */
  function IdsText(ids: seq<int>): string {
    Join(", ", IdStrings(SortInts(ids)))
  }

  /** One entry: `    "lemma": [i1, i2]`, a comma unless it is the last, and the newline. */
  function EntryLine(word: string, ids: seq<int>, last: bool): string {
    "    \"" + (word + ['"'] + EntryRest(ids, last))
  }

  /** What follows the quoted lemma in its entry. */
  function EntryRest(ids: seq<int>, last: bool): string {
    ": [" + (IdsText(ids) + [']'] + EntryEnd(last))
  }

  /** `{comma}\n` */
  function EntryEnd(last: bool): string {
    (if last then "" else ",") + "\n"
  }

  /** The entries for the lemmas in the order given. */
  function EntryLines(index: map<string, seq<int>>, words: seq<string>): (r: seq<string>)
    requires forall k :: 0 <= k < |words| ==> words[k] in index
    ensures |r| == |words|
  {
    seq(|words|, k requires 0 <= k < |words| => EntryLine(words[k], index[words[k]], k == |words| - 1))
  }

  function Concat(lines: seq<string>): string
    decreases |lines|
  {
    if lines == [] then [] else Concat(lines[..|lines| - 1]) + lines[|lines| - 1]
  }

  const Opening: string := "{\n  \"inverted_index\": {\n"

  /** What follows the entries: the closing brace and the `documents` member, whose JSON text is given. */
  function Closing(documents: string): string {
    "  },\n  \"documents\": " + documents + "\n}"
  }

  /** The file `save_inverted_index` writes: the entries in ascending lemma order. */
  function Saved(index: map<string, seq<int>>, documents: string): string {
    var words := SortedStrSet(index.Keys);
    Opening + Concat(EntryLines(index, words)) + Closing(documents)
  }

  /** `save_inverted_index`, returning the text of the file; `json.dump` of the documents is given as text. */
  method SaveInvertedIndex(index: map<string, seq<int>>, documents: string) returns (out: string)
    ensures out == Saved(index, documents)
  {
    out := WriteEntries(index, SortedStrSet(index.Keys), documents);
  }

  /** The `enumerate` loop of `save_inverted_index` over the lemmas in the order given. */
  method WriteEntries(index: map<string, seq<int>>, words: seq<string>, documents: string) returns (out: string)
    requires forall k :: 0 <= k < |words| ==> words[k] in index
    ensures out == Opening + Concat(EntryLines(index, words)) + Closing(documents)
  {
    var entries := Entries(index, words);
    out := Opening;
    out := out + entries;
    out := out + Closing(documents);
  }

  method Entries(index: map<string, seq<int>>, words: seq<string>) returns (out: string)
    requires forall k :: 0 <= k < |words| ==> words[k] in index
    ensures out == Concat(EntryLines(index, words))
  {
    ghost var lines := EntryLines(index, words);
    out := [];
    for i := 0 to |words|
      invariant out == Concat(lines[..i])
    {
      var line := EntryLine(words[i], index[words[i]], i == |words| - 1);
      ConcatStep(lines, i);
      out := out + line;
    }
    assert lines[..|words|] == lines;
  }

  lemma ConcatStep(lines: seq<string>, i: nat)
    requires i < |lines|
    ensures Concat(lines[..i + 1]) == Concat(lines[..i]) + lines[i]
  {
    assert lines[..i + 1][..i] == lines[..i];
  }

  // ---------------------------------------------------------------------
  // Reading the saved entries back

  /** `int()` of each piece; None if one is not an integer. */
  function ParseInts(pieces: seq<string>): (r: Option<seq<int>>)
    ensures r.Some? ==> |r.value| == |pieces|
    decreases |pieces|
  {
    if pieces == [] then Some([])
    else match (ParseInt(pieces[0]), ParseInts(pieces[1..]))
      case (Some(n), Some(ns)) => Some([n] + ns)
      case _ => None
  }

  /** The ids between the brackets of an entry: empty, or integers separated by commas. */
  function ReadIds(t: string): Option<seq<int>> {
    if t == [] then Some([]) else ParseInts(Split(t, ','))
  }

  /** Reads an entry line back into its lemma, its ids, and whether a comma follows. */
  function ReadEntryLine(line: string): Option<(string, seq<int>, bool)> {
    if |line| >= 5 && line[..5] == "    \"" then ReadNamed(line[5..]) else None
  }

  /** The quoted lemma, then what follows it. */
  function ReadNamed(s: string): Option<(string, seq<int>, bool)> {
    match SplitFirst(s, '"')
    case None => None
    case Some((word, rest)) =>
      match ReadBracketed(rest)
      case None => None
      case Some((ns, comma)) => Some((word, ns, comma))
  }

  /** `: [`, the ids, `]`, an optional comma and the newline. */
  function ReadBracketed(rest: string): Option<(seq<int>, bool)> {
    if |rest| >= 3 && rest[..3] == ": [" then ReadIdsAndTail(rest[3..]) else None
  }

  function ReadIdsAndTail(s: string): Option<(seq<int>, bool)> {
    match SplitFirst(s, ']')
    case None => None
    case Some((ids, tail)) =>
      match ReadIds(ids)
      case None => None
      case Some(ns) =>
        if tail == ",\n" then Some((ns, true))
        else if tail == "\n" then Some((ns, false))
        else None
  }

  /** Splitting at the first separator, when the text before it has none. */
  lemma {:induction false} SplitAt(a: string, c: char, b: string)
    requires c !in a
    ensures Split(a + [c] + b, c) == [a] + Split(b, c)
    decreases |a|
  {
    if a == [] {
      assert a + [c] + b == [c] + b;
      assert ([c] + b)[1..] == b;
    } else {
      var s := a + [c] + b;
      assert s[1..] == a[1..] + [c] + b;
      SplitAt(a[1..], c, b);
      assert [a[0]] + a[1..] == a;
    }
  }

  /** A text without the separator splits into itself. */
  lemma {:induction false} SplitNone(a: string, c: char)
    requires c !in a
    ensures Split(a, c) == [a]
    decreases |a|
  {
    if a != [] {
      SplitNone(a[1..], c);
      assert [a[0]] + a[1..] == a;
    }
  }

  /** `int()` ignores a leading space. */
  lemma ParseIntSpace(x: string)
    ensures ParseInt(" " + x) == ParseInt(x)
  {
    assert StripLeft(" " + x) == StripLeft(x) by {
      assert (" " + x)[1..] == x;
    }
  }

  /** The space after each `, ` does not change what the pieces parse to. */
  lemma ParseIntsSpace(t: string)
    ensures ParseInts(Split(" " + t, ',')) == ParseInts(Split(t, ','))
  {
    var rest := Split(t, ',');
    assert Split(" " + t, ',') == [" " + rest[0]] + rest[1..] by {
      SplitSpace(t, ',');
    }
    ParseIntSpace(rest[0]);
    ParseIntsHead(" " + rest[0], rest[0], rest[1..]);
    assert rest == [rest[0]] + rest[1..];
  }

  lemma SplitSpace(t: string, c: char)
    requires c != ' '
    ensures Split(" " + t, c) == [" " + Split(t, c)[0]] + Split(t, c)[1..]
  {
    var s := " " + t;
    assert s[0] == ' ' && s[1..] == t;
  }

  lemma ParseIntsHead(x: string, y: string, r: seq<string>)
    requires ParseInt(x) == ParseInt(y)
    ensures ParseInts([x] + r) == ParseInts([y] + r)
  {
    assert ([x] + r)[0] == x && ([x] + r)[1..] == r;
    assert ([y] + r)[0] == y && ([y] + r)[1..] == r;
  }

  lemma NoBracketInInt(n: int)
    ensures ']' !in IntToStr(n)
  {
    var h := IntToStr(n);
    assert forall i :: 0 <= i < |h| ==> h[i] == '-' || IsDigit(h[i]);
  }

  lemma IdStringsTail(xs: seq<int>)
    requires xs != []
    ensures IdStrings(xs) == [IntToStr(xs[0])] + IdStrings(xs[1..])
  {
  }

  /** The ids text reads back as the ids, and holds no closing bracket. */
  lemma {:induction false} IdsRoundTrip(xs: seq<int>)
    ensures ReadIds(Join(", ", IdStrings(xs))) == Some(xs)
    ensures ']' !in Join(", ", IdStrings(xs))
    decreases |xs|
  {
    if |xs| == 1 {
      assert Join(", ", IdStrings(xs)) == IntToStr(xs[0]);
      IdsOne(xs[0]);
      assert [xs[0]] == xs;
    } else if |xs| > 1 {
      var a, j := IntToStr(xs[0]), Join(", ", IdStrings(xs[1..]));
      assert Join(", ", IdStrings(xs)) == a + ", " + j by {
        IdStringsTail(xs);
      }
      IdsRoundTrip(xs[1..]);
      assert j != [] by {
        assert IdStrings(xs[1..])[0] != [];
      }
      IdsCons(a, j, xs[0], xs[1..]);
      assert xs == [xs[0]] + xs[1..];
    }
  }

  lemma IdsOne(x: int)
    ensures ReadIds(IntToStr(x)) == Some([x]) && ']' !in IntToStr(x)
  {
    var a := IntToStr(x);
    NoCommaInInt(x);
    NoBracketInInt(x);
    assert ReadIds(a) == ParseInts([a]) by {
      SplitNone(a, ',');
    }
    assert ParseInts([a]) == Some([x] + []) by {
      ParseIntOfIntToStr(x);
      assert [a][0] == a && [a][1..] == [];
    }
    assert [x] + [] == [x];
  }

  lemma IdsCons(a: string, j: string, x: int, rest: seq<int>)
    requires a == IntToStr(x) && j != [] && ReadIds(j) == Some(rest) && ']' !in j
    ensures ReadIds(a + ", " + j) == Some([x] + rest) && ']' !in a + ", " + j
  {
    NoCommaInInt(x);
    NoBracketInInt(x);
    ParseIntOfIntToStr(x);
    SplitCommaSpace(a, j);
    ParseIntsSpace(j);
    ReadIdsCons(a + ", " + j, a, Split(" " + j, ','), x, rest);
  }

  lemma SplitCommaSpace(a: string, j: string)
    requires ',' !in a
    ensures Split(a + ", " + j, ',') == [a] + Split(" " + j, ',')
  {
    assert a + ", " + j == a + [','] + (" " + j);
    SplitAt(a, ',', " " + j);
  }

  lemma ReadIdsCons(s: string, a: string, pieces: seq<string>, x: int, rest: seq<int>)
    requires s != [] && Split(s, ',') == [a] + pieces
    requires ParseInt(a) == Some(x) && ParseInts(pieces) == Some(rest)
    ensures ReadIds(s) == Some([x] + rest)
  {
    ParseIntsCons(a, pieces, x, rest);
  }

  lemma ParseIntsCons(a: string, pieces: seq<string>, x: int, rest: seq<int>)
    requires ParseInt(a) == Some(x) && ParseInts(pieces) == Some(rest)
    ensures ParseInts([a] + pieces) == Some([x] + rest)
  {
    assert ([a] + pieces)[0] == a && ([a] + pieces)[1..] == pieces;
  }

  /** An entry line reads back as its lemma, its sorted ids and whether it has the comma. */
  lemma EntryRead(word: string, ids: seq<int>, last: bool)
    requires '"' !in word
    ensures ReadEntryLine(EntryLine(word, ids, last)) == Some((word, SortInts(ids), !last))
  {
    RestRead(ids, last);
    LineOf(EntryLine(word, ids, last), word, EntryRest(ids, last), (SortInts(ids), !last));
  }

  lemma RestRead(ids: seq<int>, last: bool)
    ensures ReadBracketed(EntryRest(ids, last)) == Some((SortInts(ids), !last))
  {
    var t := IdsText(ids);
    var tail := EntryEnd(last);
    assert tail == "\n" || tail == ",\n";
    IdsRoundTrip(SortInts(ids));
    TailRead(t, tail, SortInts(ids));
    BracketRead(t + [']'] + tail, (SortInts(ids), !last));
  }

  lemma LineOf(line: string, word: string, rest: string, r: (seq<int>, bool))
    requires line == "    \"" + (word + ['"'] + rest)
    requires '"' !in word && ReadBracketed(rest) == Some(r)
    ensures ReadEntryLine(line) == Some((word, r.0, r.1))
  {
    NamedRead(word, rest, r.0, r.1);
    LineRead(word + ['"'] + rest, (word, r.0, r.1));
  }

  lemma TailRead(t: string, tail: string, ns: seq<int>)
    requires ']' !in t && ReadIds(t) == Some(ns) && (tail == "\n" || tail == ",\n")
    ensures ReadIdsAndTail(t + [']'] + tail) == Some((ns, tail == ",\n"))
  {
    SplitFirstAt(t, tail, ']');
  }

  lemma BracketRead(s: string, r: (seq<int>, bool))
    requires ReadIdsAndTail(s) == Some(r)
    ensures ReadBracketed(": [" + s) == Some(r)
  {
    Parts(": [", s);
  }

  lemma NamedRead(word: string, rest: string, ns: seq<int>, comma: bool)
    requires '"' !in word && ReadBracketed(rest) == Some((ns, comma))
    ensures ReadNamed(word + ['"'] + rest) == Some((word, ns, comma))
  {
    SplitFirstAt(word, rest, '"');
  }

  lemma LineRead(s: string, r: (string, seq<int>, bool))
    requires ReadNamed(s) == Some(r)
    ensures ReadEntryLine("    \"" + s) == Some(r)
  {
    Parts("    \"", s);
  }

  lemma Parts(p: string, x: string)
    ensures (p + x)[..|p|] == p && (p + x)[|p|..] == x
  {
  }

  /**
   * The saved entries come in strictly ascending lemma order, one for every
   * lemma of the index, each with that lemma's sorted ids, and every entry
   * but the last is followed by a comma.
   */
  lemma SavedEntries(index: map<string, seq<int>>, k: nat)
    requires forall w :: w in index ==> '"' !in w
    requires k < |index|
    ensures var words := SortedStrSet(index.Keys);
            var lines := EntryLines(index, words);
            StrIncreasing(words) && (forall w :: w in words <==> w in index) && |lines| == |index| &&
            ReadEntryLine(lines[k]) == Some((words[k], SortInts(index[words[k]]), k < |index| - 1))
  {
    var words := SortedStrSet(index.Keys);
    assert |index.Keys| == |index|;
    assert words[k] in index;
    EntryRead(words[k], index[words[k]], k == |words| - 1);
  }
}
