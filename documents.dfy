/**
 * DocumentService's page filtering and source rewriting
 * (app/core/preprocessor/documents/services.py): `replace_source`, which maps a downloaded
 * file's path back to its configured link through the path's stem, and `clean_documents`,
 * which walks the page list backwards, deletes the pages that are not meaningful and cleans
 * the text and rewrites the source of the others.
 */
module Documents {
  import opened Wrappers
  import opened Text

  /** A metadata value of a loaded page: a string (the `source` path) or an integer (the `page` index). */
  datatype MetaValue = Str(s: string) | Int(n: int)

  /** A LangChain Document: the page text and its metadata dictionary. */
  datatype Page = Page(pageContent: string, metadata: map<string, MetaValue>)

  /** What the page loop can raise: a missing dictionary key, or a non-string handed to Path. */
  datatype DocumentError = KeyError(key: string) | TypeError

  /** The constructor's default for min_word_count. */
  const DefaultMinWordCount: int := 25

  /** The state of a DocumentService that the cleaning reads: the configured name -> link map,
      the stopword set and the lemmatizer (both opaque), and the meaningfulness threshold. */
  datatype DocumentService = DocumentService(
    documentLinks: map<string, string>,
    stopWords: set<string>,
    lemmatize: string -> string,
    minWordCount: int)

  // ---------------------------------------------------------------------------------------------
  // Path(path).stem on a POSIX path

  /** `s.rfind(c)`: the last index of c in s, or -1. */
  function LastIndexOf(s: string, c: char): (r: int)
    ensures -1 <= r < |s|
    ensures r >= 0 ==> s[r] == c
    ensures forall j :: r < j < |s| ==> s[j] != c
  {
    if s == [] then -1
    else if s[|s| - 1] == c then |s| - 1
    else LastIndexOf(s[..|s| - 1], c)
  }

  /** `PurePosixPath(path).name`: the last component, where empty and "." components do not count. */
  function PathName(path: string): (name: string)
    ensures forall i :: 0 <= i < |name| ==> name[i] != '/'
    ensures name != "."
    decreases |path|
  {
    var k := LastIndexOf(path, '/');
    var last := path[k + 1..];
    if last != "" && last != "." then last
    else if k < 0 then ""
    else PathName(path[..k])
  }

  /** `PurePath.stem` of a file name: the name without its final suffix; a leading dot or a
      trailing dot does not start a suffix. */
  function Stem(name: string): (stem: string)
    ensures |stem| <= |name| && stem == name[..|stem|]
    ensures stem != name ==> 0 < |stem| < |name| - 1 && name[|stem|] == '.'
    ensures stem != name ==> forall j :: |stem| < j < |name| ==> name[j] != '.'
    ensures stem == name ==> (name != [] && name[|name| - 1] == '.') || forall j :: 0 < j < |name| ==> name[j] != '.'
  {
    var i := LastIndexOf(name, '.');
    if 0 < i < |name| - 1 then name[..i] else name
  }

  /** `document_links[Path(path).stem]`, or the KeyError that lookup raises. */
  function ReplaceSource(documentLinks: map<string, string>, path: string): (r: Result<string, DocumentError>)
    ensures r.Ok? ==> r.value in documentLinks.Values
    ensures r.Err? ==> r.error.KeyError? && r.error.key !in documentLinks
    ensures r.Ok? <==> Stem(PathName(path)) in documentLinks
    ensures r.Ok? ==> r.value == documentLinks[Stem(PathName(path))]
    ensures r.Err? ==> r.error == KeyError(Stem(PathName(path)))
  {
    var stem := Stem(PathName(path));
    if stem in documentLinks then Ok(documentLinks[stem]) else Err(KeyError(stem))
  }

  /** A name without '/' that is neither empty nor "." is its own path name. */
  lemma PathNameOfName(n: string)
    requires n != [] && n != "." && forall i :: 0 <= i < |n| ==> n[i] != '/'
    ensures PathName(n) == n
  {
    assert LastIndexOf(n, '/') == -1;
    assert n[0..] == n;
  }

  /** The name of `dir/n` is n, whatever the directory. */
  lemma PathNameOfDirEntry(dir: string, n: string)
    requires n != [] && n != "." && forall i :: 0 <= i < |n| ==> n[i] != '/'
    ensures PathName(dir + "/" + n) == n
  {
    var path := dir + "/" + n;
    var k := LastIndexOf(path, '/');
    assert k == |dir| by {
      assert path[|dir|] == '/';
    }
    assert path[k + 1..] == n;
  }

  /** A trailing separator, or a trailing "." component, does not change the name. */
  lemma PathNameTrailing(path: string)
    ensures PathName(path + "/") == PathName(path)
    ensures PathName(path + "/.") == PathName(path)
  {
    var p1, p2 := path + "/", path + "/.";
    assert p1[..|path|] == path && p2[..|path|] == path;
    assert LastIndexOf(p1, '/') == |path|;
    assert p2[|path|] == '/' && p2[|path| + 1] == '.';
    assert LastIndexOf(p2, '/') == |path|;
    assert p2[|path| + 1..] == ".";
  }

  /** The stem of `n.ext` is n when n is not empty and ext is a non-empty suffix without '.'. */
  lemma StemOfSuffixed(n: string, ext: string)
    requires n != [] && ext != [] && forall j :: 0 <= j < |ext| ==> ext[j] != '.'
    ensures Stem(n + "." + ext) == n
  {
    var name := n + "." + ext;
    assert name[|n|] == '.' && name[|name| - 1] == ext[|ext| - 1];
    assert forall j :: |n| < j < |name| ==> name[j] == ext[j - |n| - 1];
    assert name[..|n|] == n;
  }

  /** The downloader saves document `name` as "app/data/<name>.pdf"; replace_source maps that
      path back to the link configured for `name`. */
  lemma ReplaceSourceRoundTrip(documentLinks: map<string, string>, name: string)
    requires name != [] && forall i :: 0 <= i < |name| ==> name[i] != '/'
    ensures ReplaceSource(documentLinks, "app/data/" + name + ".pdf")
            == if name in documentLinks then Ok(documentLinks[name]) else Err(KeyError(name))
  {
    var file := name + ".pdf";
    assert "app/data/" + name + ".pdf" == "app/data" + "/" + file;
    assert file == name + "." + "pdf";
    assert forall i :: 0 <= i < |file| ==> file[i] != '/' by {
      assert forall i :: |name| <= i < |file| ==> file[i] == ".pdf"[i - |name|];
    }
    PathNameOfDirEntry("app/data", file);
    StemOfSuffixed(name, "pdf");
  }

  // ---------------------------------------------------------------------------------------------
  // clean_documents

  /** `page.metadata["source"]` as a path: a KeyError when missing, a TypeError when not a string. */
  function SourcePath(p: Page): (r: Result<string, DocumentError>)
    ensures r.Ok? <==> "source" in p.metadata && p.metadata["source"].Str?
    ensures r.Ok? ==> r.value == p.metadata["source"].s
  {
    if "source" !in p.metadata then Err(KeyError("source"))
    else match p.metadata["source"]
      case Str(path) => Ok(path)
      case Int(_) => Err(TypeError)
  }

  /** Lines 104 and 106 for one page: the configured link that replaces the page's source path. */
  function RewrittenSource(documentLinks: map<string, string>, p: Page): (r: Result<string, DocumentError>)
    ensures r.Ok? ==> r.value in documentLinks.Values
  {
    match SourcePath(p)
    case Err(e) => Err(e)
    case Ok(path) => ReplaceSource(documentLinks, path)
  }

  /** What clean_documents makes of one surviving page: the cleaned text, and the configured link
      in place of the file path under "source". */
  function CleanPage(svc: DocumentService, p: Page): (r: Result<Page, DocumentError>)
    ensures r.Ok? ==> Normalized(r.value.pageContent)
    ensures r.Ok? ==> "source" in r.value.metadata && r.value.metadata["source"].Str?
                      && r.value.metadata["source"].s in svc.documentLinks.Values
  {
    var content := CleanText(p.pageContent, svc.stopWords, svc.lemmatize);
    match RewrittenSource(svc.documentLinks, p)
    case Err(e) => Err(e)
    case Ok(source) => Ok(WithSource(p, content, source))
  }

  /** Lines 105-106: the page with the new text and the new "source" entry; a page that has a
      "source" entry keeps its key set and every other entry. */
  function WithSource(p: Page, content: string, source: string): (q: Page)
    ensures q.pageContent == content && "source" in q.metadata && q.metadata["source"] == Str(source)
    ensures "source" in p.metadata ==> q.metadata.Keys == p.metadata.Keys
    ensures forall k :: k in p.metadata && k != "source" ==> k in q.metadata && q.metadata[k] == p.metadata[k]
  {
    Page(content, p.metadata["source" := Str(source)])
  }

  /** A page cleans iff its source is a string path whose stem is a configured name. */
  lemma CleanPageSucceeds(svc: DocumentService, p: Page)
    ensures CleanPage(svc, p).Ok? <==> SourcePath(p).Ok? && Stem(PathName(SourcePath(p).value)) in svc.documentLinks
  {
  }

  /** The cleaned page holds clean_text of the old text and, under "source", the link configured
      for the stem of the old source path. */
  lemma CleanPageContent(svc: DocumentService, p: Page)
    requires CleanPage(svc, p).Ok?
    ensures CleanPage(svc, p).value.pageContent == CleanText(p.pageContent, svc.stopWords, svc.lemmatize)
    ensures CleanPage(svc, p).value.metadata["source"] == Str(svc.documentLinks[Stem(PathName(SourcePath(p).value))])
  {
  }

  /** Cleaning a page rewrites the "source" entry only: every other metadata entry is kept as it was. */
  lemma CleanPageKeepsMetadata(svc: DocumentService, p: Page)
    requires CleanPage(svc, p).Ok?
    ensures CleanPage(svc, p).value.metadata.Keys == p.metadata.Keys
    ensures forall k :: k in p.metadata && k != "source" ==> CleanPage(svc, p).value.metadata[k] == p.metadata[k]
  {
    assert "source" in p.metadata;
  }

  // ---------------------------------------------------------------------------------------------
  // The backward walk of clean_documents, for any test and any per-element step

  /** Walking s from the back: an element that keep rejects is deleted, any other is replaced by
      f's value, and the walk stops with the first error it meets. */
  function Walk<T, U, E>(keep: T -> bool, f: T -> Result<U, E>, s: seq<T>): (r: Result<seq<U>, E>)
    ensures r.Ok? ==> |r.value| <= |s|
    decreases |s|
  {
    if s == [] then Ok([])
    else
      match Walk(keep, f, s[1..])
      case Err(e) => Err(e)
      case Ok(rest) =>
        if !keep(s[0]) then Ok(rest)
        else
          match f(s[0])
          case Err(e) => Err(e)
          case Ok(y) => Ok([y] + rest)
  }

  /** f succeeds on every element of s. */
  ghost predicate AllOk<T, U, E>(f: T -> Result<U, E>, s: seq<T>) {
    forall j :: 0 <= j < |s| ==> f(s[j]).Ok?
  }

  /** f maps s to v, element by element. */
  ghost predicate MapsTo<T, U, E>(f: T -> Result<U, E>, s: seq<T>, v: seq<U>) {
    |v| == |s| && forall j :: 0 <= j < |s| ==> f(s[j]) == Ok(v[j])
  }

  /** f fails with e on element j of s and succeeds on every element after it. */
  ghost predicate LastErrAt<T, U, E>(f: T -> Result<U, E>, s: seq<T>, j: int, e: E) {
    0 <= j < |s| && f(s[j]) == Err(e) && forall k :: j < k < |s| ==> f(s[k]).Ok?
  }

  lemma FilterCons<T(!new)>(keep: T -> bool, s: seq<T>)
    requires s != []
    ensures Filter(keep, s) == if keep(s[0]) then [s[0]] + Filter(keep, s[1..]) else Filter(keep, s[1..])
  {
  }

  lemma AllOkCons<T, U, E>(f: T -> Result<U, E>, p: T, s: seq<T>)
    ensures AllOk(f, [p] + s) <==> f(p).Ok? && AllOk(f, s)
  {
    var t := [p] + s;
    assert t[0] == p;
    assert forall j :: 0 <= j < |s| ==> t[j + 1] == s[j];
  }

  lemma MapsToCons<T, U, E>(f: T -> Result<U, E>, p: T, s: seq<T>, q: U, v: seq<U>)
    requires f(p) == Ok(q) && MapsTo(f, s, v)
    ensures MapsTo(f, [p] + s, [q] + v)
  {
    var t, w := [p] + s, [q] + v;
    forall j | 0 <= j < |t| ensures f(t[j]) == Ok(w[j]) {
      if j > 0 {
        assert t[j] == s[j - 1] && w[j] == v[j - 1];
      }
    }
  }

  lemma LastErrCons<T, U, E>(f: T -> Result<U, E>, p: T, s: seq<T>, j: int, e: E)
    requires LastErrAt(f, s, j, e)
    ensures LastErrAt(f, [p] + s, j + 1, e)
  {
    var t := [p] + s;
    assert forall k :: 0 <= k < |s| ==> t[k + 1] == s[k];
  }

  /** The walk keeps exactly the elements keep accepts, in order, each mapped by f, and succeeds
      iff f succeeds on all of them. */
  lemma {:induction false} WalkSurvivors<T(!new), U, E>(keep: T -> bool, f: T -> Result<U, E>, s: seq<T>)
    ensures Walk(keep, f, s).Ok? <==> AllOk(f, Filter(keep, s))
    ensures Walk(keep, f, s).Ok? ==> MapsTo(f, Filter(keep, s), Walk(keep, f, s).value)
    decreases |s|
  {
    if s != [] {
      WalkSurvivors(keep, f, s[1..]);
      FilterCons(keep, s);
      var t := Filter(keep, s[1..]);
      if keep(s[0]) {
        AllOkCons(f, s[0], t);
        if Walk(keep, f, s[1..]).Ok? && f(s[0]).Ok? {
          MapsToCons(f, s[0], t, f(s[0]).value, Walk(keep, f, s[1..]).value);
        }
      }
    }
  }

  /** A failing walk fails with the error of the last accepted element on which f fails: walking
      from the back, it meets that element first. */
  lemma {:induction false} WalkFailsAtLast<T(!new), U, E>(keep: T -> bool, f: T -> Result<U, E>, s: seq<T>)
    requires Walk(keep, f, s).Err?
    ensures exists j :: LastErrAt(f, Filter(keep, s), j, Walk(keep, f, s).error)
    decreases |s|
  {
    var t := Filter(keep, s[1..]);
    var e := Walk(keep, f, s).error;
    FilterCons(keep, s);
    if keep(s[0]) {
      if Walk(keep, f, s[1..]).Err? {
        WalkFailsAtLast(keep, f, s[1..]);
        var j :| LastErrAt(f, t, j, e);
        LastErrCons(f, s[0], t, j, e);
      } else {
        WalkSurvivors(keep, f, s[1..]);
        assert LastErrAt(f, [s[0]] + t, 0, e) by {
          assert forall k :: 0 < k < |[s[0]] + t| ==> ([s[0]] + t)[k] == t[k - 1];
        }
      }
    } else {
      WalkFailsAtLast(keep, f, s[1..]);
    }
  }

  /** Once a suffix fails, the whole walk fails with the same error. */
  lemma {:induction false} WalkErrPropagates<T, U, E>(keep: T -> bool, f: T -> Result<U, E>, s: seq<T>, k: nat)
    requires k <= |s| && Walk(keep, f, s[k..]).Err?
    ensures Walk(keep, f, s) == Walk(keep, f, s[k..])
    decreases k
  {
    if k > 0 {
      assert s[k - 1..][1..] == s[k..];
      WalkErrPropagates(keep, f, s, k - 1);
    }
  }

  /** One step of the walk, at index i, after the part behind i succeeded. */
  lemma WalkStep<T, U, E>(keep: T -> bool, f: T -> Result<U, E>, s: seq<T>, i: nat)
    requires i < |s| && Walk(keep, f, s[i + 1..]).Ok?
    ensures Walk(keep, f, s[i..])
            == if !keep(s[i]) then Walk(keep, f, s[i + 1..])
               else match f(s[i])
                    case Err(e) => Err(e)
                    case Ok(y) => Ok([y] + Walk(keep, f, s[i + 1..]).value)
  {
    assert s[i..][1..] == s[i + 1..];
  }

  /** An accepted element that f maps to y goes in front of the walked part behind it. */
  lemma WalkKeep<T, U, E>(keep: T -> bool, f: T -> Result<U, E>, s: seq<T>, i: nat, y: U)
    requires i < |s| && Walk(keep, f, s[i + 1..]).Ok? && keep(s[i]) && f(s[i]) == Ok(y)
    ensures Walk(keep, f, s[i..]) == Ok([y] + Walk(keep, f, s[i + 1..]).value)
  {
    WalkStep(keep, f, s, i);
  }

  /** An accepted element on which f fails makes the whole walk fail with its error. */
  lemma WalkFail<T, U, E>(keep: T -> bool, f: T -> Result<U, E>, s: seq<T>, i: nat, e: E)
    requires i < |s| && Walk(keep, f, s[i + 1..]).Ok? && keep(s[i]) && f(s[i]) == Err(e)
    ensures Walk(keep, f, s) == Err(e)
  {
    WalkStep(keep, f, s, i);
    WalkErrPropagates(keep, f, s, i);
  }

  /** A rejected element leaves the walked part behind it as it is. */
  lemma WalkDrop<T, U, E>(keep: T -> bool, f: T -> Result<U, E>, s: seq<T>, i: nat)
    requires i < |s| && Walk(keep, f, s[i + 1..]).Ok? && !keep(s[i])
    ensures Walk(keep, f, s[i..]) == Walk(keep, f, s[i + 1..])
  {
    WalkStep(keep, f, s, i);
  }

  // ---------------------------------------------------------------------------------------------
  // clean_documents as a walk

  /** is_meaningful on a page's raw text. */
  function Meaningful(svc: DocumentService): Page -> bool {
    (p: Page) => IsMeaningful(p.pageContent, svc.minWordCount)
  }

  /** CleanPage as a step of the walk. */
  function Cleaner(svc: DocumentService): Page -> Result<Page, DocumentError> {
    (p: Page) => CleanPage(svc, p)
  }

  /** The pages whose raw text is meaningful, in their original order. */
  function Survivors(svc: DocumentService, ps: seq<Page>): (r: seq<Page>)
    ensures forall i :: 0 <= i < |r| ==> IsMeaningful(r[i].pageContent, svc.minWordCount)
    ensures IsSubsequence(r, ps)
    ensures forall p: Page :: IsMeaningful(p.pageContent, svc.minWordCount) ==> multiset(r)[p] == multiset(ps)[p]
  {
    Filter(Meaningful(svc), ps)
  }

  /** The value clean_documents leaves in the list, or the error it raises: the pages are walked
      from the back, the ones whose raw text is not meaningful are deleted and the others are
      cleaned by CleanPage. */
  function CleanedDocuments(svc: DocumentService, ps: seq<Page>): (r: Result<seq<Page>, DocumentError>)
    ensures r.Ok? ==> |r.value| <= |ps|
  {
    Walk(Meaningful(svc), Cleaner(svc), ps)
  }

  /** clean_documents keeps exactly the meaningful pages (judged on their raw text), in order, each
      cleaned by CleanPage, and succeeds iff every one of them cleans. */
  lemma CleanedDocumentsSurvivors(svc: DocumentService, ps: seq<Page>)
    ensures CleanedDocuments(svc, ps).Ok? <==> AllOk(Cleaner(svc), Survivors(svc, ps))
    ensures CleanedDocuments(svc, ps).Ok? ==> MapsTo(Cleaner(svc), Survivors(svc, ps), CleanedDocuments(svc, ps).value)
  {
    WalkSurvivors(Meaningful(svc), Cleaner(svc), ps);
  }

  /** With the constructor's default threshold, a page of fewer than 25 whitespace-separated
      tokens never survives, whatever its position. */
  lemma ShortPagesDropped(svc: DocumentService, ps: seq<Page>, p: Page)
    requires svc.minWordCount == DefaultMinWordCount && |Split(p.pageContent)| < DefaultMinWordCount
    ensures p !in Survivors(svc, ps)
  {
  }

  /** When clean_documents fails, it fails with the error of the last meaningful page that cannot
      be cleaned: the backward walk meets that page first. */
  lemma CleanedDocumentsFailsAtLast(svc: DocumentService, ps: seq<Page>)
    requires CleanedDocuments(svc, ps).Err?
    ensures exists j :: LastErrAt(Cleaner(svc), Survivors(svc, ps), j, CleanedDocuments(svc, ps).error)
  {
    WalkFailsAtLast(Meaningful(svc), Cleaner(svc), ps);
    var j :| LastErrAt(Cleaner(svc), Filter(Meaningful(svc), ps), j, Walk(Meaningful(svc), Cleaner(svc), ps).error);
    assert LastErrAt(Cleaner(svc), Survivors(svc, ps), j, CleanedDocuments(svc, ps).error);
  }

  /** Index i of the half-processed list is still the original page i, and storing y there
      turns the untouched prefix up to i into the prefix before i followed by y. */
  lemma ReplaceAtBoundary<T>(s: seq<T>, i: nat, done: seq<T>, y: T)
    requires i < |s|
    ensures (s[..i + 1] + done)[i] == s[i]
    ensures (s[..i + 1] + done)[i := y] == s[..i] + ([y] + done)
  {
    assert s[..i + 1] == s[..i] + [s[i]];
  }

  /** Deleting index i of the half-processed list leaves the prefix before i and the done part. */
  lemma DeleteAtBoundary<T>(s: seq<T>, i: nat, done: seq<T>)
    requires i < |s|
    ensures (s[..i + 1] + done)[..i] + (s[..i + 1] + done)[i + 1..] == s[..i] + done
  {
    assert (s[..i + 1] + done)[..i] == s[..i];
    assert (s[..i + 1] + done)[i + 1..] == done;
  }

  /** The list left behind when clean_documents raises at page k with error e: page k and the pages
      before it untouched, the pages after it already filtered and cleaned. */
  ghost predicate StoppedAt(svc: DocumentService, original: seq<Page>, pages: seq<Page>, k: int, e: DocumentError) {
    && 0 <= k < |original|
    && IsMeaningful(original[k].pageContent, svc.minWordCount)
    && CleanPage(svc, original[k]) == Err(e)
    && CleanedDocuments(svc, original[k + 1..]).Ok?
    && pages == original[..k + 1] + CleanedDocuments(svc, original[k + 1..]).value
  }

  /** The Python list that clean_documents mutates in place. */
  class PageList {
    var pages: seq<Page>

    constructor (pages: seq<Page>)
      ensures this.pages == pages
    {
      this.pages := pages;
    }
  }

  /** One iteration of clean_documents' backward loop, at index i: delete the page when its raw
      text is not meaningful, otherwise clean it in place or raise. */
  method CleanDocumentAt(svc: DocumentService, documents: PageList, i: nat, ghost original: seq<Page>)
      returns (err: Option<DocumentError>)
    requires i < |original| && CleanedDocuments(svc, original[i + 1..]).Ok?
    requires documents.pages == original[..i + 1] + CleanedDocuments(svc, original[i + 1..]).value
    modifies documents
    ensures err.None? ==> CleanedDocuments(svc, original[i..]).Ok?
                          && documents.pages == original[..i] + CleanedDocuments(svc, original[i..]).value
    ensures err.Some? ==> StoppedAt(svc, original, documents.pages, i, err.value)
                          && CleanedDocuments(svc, original) == Err(err.value)
  {
    ghost var done := CleanedDocuments(svc, original[i + 1..]).value;
    ReplaceAtBoundary(original, i, done, original[i]);
    var page := documents.pages[i];
    if !IsMeaningful(page.pageContent, svc.minWordCount) {
      WalkDrop(Meaningful(svc), Cleaner(svc), original, i);
      DeleteAtBoundary(original, i, done);
      documents.pages := documents.pages[..i] + documents.pages[i + 1..];
    } else {
      var cleanedOrError := CleanPage(svc, page);
      if cleanedOrError.Err? {
        WalkFail(Meaningful(svc), Cleaner(svc), original, i, cleanedOrError.error);
        return Some(cleanedOrError.error);
      }
      var cleaned := cleanedOrError.value;
      WalkKeep(Meaningful(svc), Cleaner(svc), original, i, cleaned);
      ReplaceAtBoundary(original, i, done, cleaned);
      documents.pages := documents.pages[i := cleaned];
    }
    return None;
  }

  /** clean_documents: walks the list backwards, deleting non-meaningful pages and cleaning the
      others in place. On success the list holds CleanedDocuments of the old list; when a source
      cannot be rewritten, the error is returned and the list is left half-processed (StoppedAt). */
  method CleanDocuments(svc: DocumentService, documents: PageList) returns (err: Option<DocumentError>)
    modifies documents
    ensures err.None? ==> CleanedDocuments(svc, old(documents.pages)) == Ok(documents.pages)
    ensures err.Some? ==> CleanedDocuments(svc, old(documents.pages)) == Err(err.value)
    ensures err.Some? ==> exists k :: StoppedAt(svc, old(documents.pages), documents.pages, k, err.value)
  {
    ghost var original := documents.pages;
    var i := |documents.pages|;
    while i > 0
      invariant 0 <= i <= |original|
      invariant CleanedDocuments(svc, original[i..]).Ok?
      invariant documents.pages == original[..i] + CleanedDocuments(svc, original[i..]).value
    {
      i := i - 1;
      assert original[..i] + original[i..i + 1] == original[..i + 1];
      err := CleanDocumentAt(svc, documents, i, original);
      if err.Some? {
        return;
      }
    }
    assert original[..0] + CleanedDocuments(svc, original[0..]).value == CleanedDocuments(svc, original).value by {
      assert original[..0] == [] && original[0..] == original;
    }
    return None;
  }
}
