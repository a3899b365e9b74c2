/** frontend/Task-manager/src/utils/uploadimage.js: the image validator, the
    guards in front of a single upload and the collection of several
    uploads. The HTTP request is outside the model: its outcome enters as a
    parameter. */
module UploadImage {
  import opened Common
  import opened Helper

  const MiB := 1024 * 1024
  const DefaultMaxSize := 5 * MiB
  const DefaultAllowedTypes := ["image/jpeg", "image/png", "image/gif", "image/webp"]
  const NoFileProvided := "No file provided"

  datatype ImageCheck = ImageCheck(isValid: bool, error: Option<string>)

  /** `t.split('/')[1].toUpperCase()`, or None when t has no '/', where the
      source reads `undefined.toUpperCase()` and throws. */
  function TypeLabel(t: string): Option<string> {
    var parts := Split(t, '/');
    if |parts| < 2 then None else Some(ToUpper(parts[1]))
  }

  /** The labels joined with ", ", or None when one of them throws. */
  function TypeLabels(types: seq<string>): Option<string> {
    if types == [] then Some("")
    else
      var head := TypeLabel(types[0]);
      var rest := TypeLabels(types[1..]);
      if head.None? || rest.None? then None
      else if |types| == 1 then head
      else Some(head.value + ", " + rest.value)
  }

  /** validateImageFile: None stands for the TypeError thrown while building
      the type message. The checks run in the order presence, type, size. */
  function ValidateImageFile(file: Option<FileInfo>, maxSize: nat, allowedTypes: seq<string>): (r: Option<ImageCheck>)
    ensures file.None? ==> r == Some(ImageCheck(false, Some(NoFileProvided)))
    ensures file.Some? && file.value.mimeType !in allowedTypes ==>
      r == (match TypeLabels(allowedTypes)
            case None => None
            case Some(labels) => Some(ImageCheck(false, Some("Invalid file type. Allowed types: " + labels))))
    ensures file.Some? && file.value.mimeType in allowedTypes && file.value.size > maxSize ==>
      r == Some(ImageCheck(false, Some("File size exceeds " + NatToString(RoundHalfUp(maxSize, MiB)) + "MB limit")))
    ensures r.Some? ==> (r.value.isValid <==> file.Some? && file.value.mimeType in allowedTypes && file.value.size <= maxSize)
    ensures r.Some? ==> (r.value.isValid <==> r.value.error.None?)
  {
    if file.None? then Some(ImageCheck(false, Some(NoFileProvided)))
    else if file.value.mimeType !in allowedTypes then
      match TypeLabels(allowedTypes)
      case None => None
      case Some(labels) => Some(ImageCheck(false, Some("Invalid file type. Allowed types: " + labels)))
    else if file.value.size > maxSize then
      Some(ImageCheck(false, Some("File size exceeds " + NatToString(RoundHalfUp(maxSize, MiB)) + "MB limit")))
    else Some(ImageCheck(true, None))
  }

  /** A piece before a '/' splits off: `split('/')` then has a second element. */
  lemma {:induction false} SplitHasSecond(t: string, i: nat)
    requires i < |t| && t[i] == '/'
    ensures |Split(t, '/')| >= 2
  {
    if t[0] != '/' {
      SplitHasSecond(t[1..], i - 1);
    }
  }

  lemma {:induction false} NoSlashOnePiece(t: string)
    requires '/' !in t
    ensures |Split(t, '/')| == 1
  {
    SplitWord(t, '/');
  }

  /** The label of "type/subtype" is the subtype in capitals. */
  lemma TypeLabelOfPair(a: string, b: string)
    requires '/' !in a && '/' !in b
    ensures TypeLabel(a + "/" + b) == Some(ToUpper(b))
  {
    SplitAfterWord(a, '/', b);
    SplitWord(b, '/');
    assert a + "/" + b == a + ['/'] + b;
  }

  /** The type message can be built exactly when every allowed type has a '/'. */
  lemma {:induction false} TypeLabelsDefined(types: seq<string>)
    ensures TypeLabels(types).Some? <==> forall k :: 0 <= k < |types| ==> '/' in types[k]
  {
    if types != [] {
      TypeLabelsDefined(types[1..]);
      if '/' in types[0] {
        var i :| 0 <= i < |types[0]| && types[0][i] == '/';
        SplitHasSecond(types[0], i);
      } else {
        NoSlashOnePiece(types[0]);
      }
      assert forall k :: 1 <= k < |types| ==> types[k] == types[1..][k - 1];
    }
  }

  /** The type is checked before the size: for a type that is not allowed,
      the size makes no difference. */
  lemma TypeCheckedBeforeSize(name: string, size1: nat, size2: nat, mimeType: string, maxSize: nat, allowedTypes: seq<string>)
    requires mimeType !in allowedTypes
    ensures ValidateImageFile(Some(FileInfo(name, size1, mimeType)), maxSize, allowedTypes)
            == ValidateImageFile(Some(FileInfo(name, size2, mimeType)), maxSize, allowedTypes)
  {
  }

  /** With the defaults a type outside the four is refused, whatever the size. */
  lemma RejectsOtherType(name: string, size: nat, mimeType: string)
    requires mimeType !in DefaultAllowedTypes
    ensures var r := ValidateImageFile(Some(FileInfo(name, size, mimeType)), DefaultMaxSize, DefaultAllowedTypes);
      r.Some? && !r.value.isValid && r.value.error.Some?
  {
    var d := DefaultAllowedTypes;
    assert d[0][5] == '/' && d[1][5] == '/' && d[2][5] == '/' && d[3][5] == '/';
    TypeLabelsDefined(d);
  }

  lemma FiveMiBLabel()
    ensures NatToString(RoundHalfUp(DefaultMaxSize, MiB)) == "5"
  {
    assert RoundHalfUp(DefaultMaxSize, MiB) == 5;
    assert NatToString(5) == [DigitChar(5)] == "5";
  }

  /** A file of exactly 5 MiB passes and one byte more fails. */
  lemma SizeLimitIsInclusive(name: string)
    ensures ValidateImageFile(Some(FileInfo(name, DefaultMaxSize, "image/png")), DefaultMaxSize, DefaultAllowedTypes)
            == Some(ImageCheck(true, None))
    ensures ValidateImageFile(Some(FileInfo(name, DefaultMaxSize + 1, "image/png")), DefaultMaxSize, DefaultAllowedTypes)
            == Some(ImageCheck(false, Some("File size exceeds 5MB limit")))
  {
    FiveMiBLabel();
    assert "File size exceeds " + "5" + "MB limit" == "File size exceeds 5MB limit";
    assert "image/png" in DefaultAllowedTypes by {
      assert DefaultAllowedTypes[1] == "image/png";
    }
  }

  // ---------------------------------------------------------------------
  // uploadImage and uploadMultipleImages

  /** The result of the POST: a failure (the catch branch) or the reply's
      `imageUrl` and `url` fields. */
  datatype UploadOutcome = RequestFailed | Replied(imageUrl: Option<string>, url: Option<string>)

  /** The three guards before the request: a file, an `image/` type, at most 5 MiB. */
  predicate UploadAllowed(file: Option<FileInfo>) {
    file.Some? && "image/" <= file.value.mimeType && file.value.size <= DefaultMaxSize
  }

  /** uploadImage: null without a request when a guard fails; otherwise the
      reply's `imageUrl`, else its `url`, else null. A returned URL is never empty. */
  function UploadImageUrl(file: Option<FileInfo>, outcome: UploadOutcome): (r: Option<string>)
    ensures !UploadAllowed(file) ==> r.None?
    ensures r.Some? ==> r.value != "" && outcome.Replied?
    ensures r.Some? ==> r == outcome.imageUrl || r == outcome.url
    ensures UploadAllowed(file) && outcome.Replied? && Truthy(outcome.imageUrl) ==> r == outcome.imageUrl
    ensures UploadAllowed(file) && outcome.Replied? && !Truthy(outcome.imageUrl)
            ==> r == (if Truthy(outcome.url) then outcome.url else None)
  {
    if file.None? then None
    else if !("image/" <= file.value.mimeType) then None
    else if file.value.size > DefaultMaxSize then None
    else match outcome
      case RequestFailed => None
      case Replied(imageUrl, url) =>
        if Truthy(imageUrl) then imageUrl else if Truthy(url) then url else None
  }

  /** The present values, in order: none invented and none missed. */
  function Present<T>(s: seq<Option<T>>): (r: seq<T>)
    ensures |r| <= |s|
    ensures |r| == |s| <==> forall k :: 0 <= k < |s| ==> s[k].Some?
    ensures forall k :: 0 <= k < |r| ==> Some(r[k]) in s
    ensures forall k :: 0 <= k < |s| && s[k].Some? ==> s[k].value in r
  {
    if s == [] then []
    else
      var rest := Present(s[1..]);
      assert forall k :: 0 <= k < |rest| ==> Some(rest[k]) in s[1..];
      assert forall k :: 1 <= k < |s| && s[k].Some? ==> s[1..][k - 1].value in rest;
      if s[0].Some? then [s[0].value] + rest else rest
  }

  function UploadResults(files: seq<FileInfo>, outcomes: seq<UploadOutcome>): (r: seq<Option<string>>)
    requires |outcomes| == |files|
    ensures |r| == |files|
    ensures forall k :: 0 <= k < |files| ==> r[k] == UploadImageUrl(Some(files[k]), outcomes[k])
  {
    if files == [] then []
    else [UploadImageUrl(Some(files[0]), outcomes[0])] + UploadResults(files[1..], outcomes[1..])
  }

  /** uploadMultipleImages: the URLs of the uploads that returned one, in
      input order; `outcomes[k]` is the reply to the k-th upload. */
  function UploadMultipleImages(files: seq<FileInfo>, outcomes: seq<UploadOutcome>): (r: seq<string>)
    requires |outcomes| == |files|
    ensures files == [] ==> r == []
    ensures |r| <= |files|
    ensures forall k :: 0 <= k < |r| ==> r[k] != ""
    ensures |r| == |files| <==> forall k :: 0 <= k < |files| ==> UploadImageUrl(Some(files[k]), outcomes[k]).Some?
    ensures forall k :: 0 <= k < |files| && UploadImageUrl(Some(files[k]), outcomes[k]).Some?
                        ==> UploadImageUrl(Some(files[k]), outcomes[k]).value in r
  {
    var results := UploadResults(files, outcomes);
    assert forall k :: 0 <= k < |Present(results)| ==> Some(Present(results)[k]) in results;
    assert forall k :: 0 <= k < |results| && results[k].Some? ==> results[k].value in Present(results);
    Present(results)
  }

  /** One more file appends its URL, if its upload returned one, after the
      URLs of the files before it: the result keeps input order. */
  lemma UploadOneMore(files: seq<FileInfo>, outcomes: seq<UploadOutcome>, f: FileInfo, o: UploadOutcome)
    requires |outcomes| == |files|
    ensures var u := UploadImageUrl(Some(f), o);
            UploadMultipleImages(files + [f], outcomes + [o])
            == UploadMultipleImages(files, outcomes) + (if u.Some? then [u.value] else [])
  {
    UploadResultsAppend(files, [f], outcomes, [o]);
    PresentAppend(UploadResults(files, outcomes), UploadResults([f], [o]));
  }

  /** A file refused by the guards drops out without shifting the others:
      the URLs of the files around it keep their order. */
  lemma RefusedFileDropsOut(before: seq<FileInfo>, f: FileInfo, after: seq<FileInfo>,
                             ob: seq<UploadOutcome>, o: UploadOutcome, oa: seq<UploadOutcome>)
    requires |ob| == |before| && |oa| == |after|
    requires !UploadAllowed(Some(f))
    ensures UploadMultipleImages(before + [f] + after, ob + [o] + oa)
            == UploadMultipleImages(before, ob) + UploadMultipleImages(after, oa)
  {
    UploadResultsAround(before, f, after, ob, o, oa);
    PresentSkipsNone(UploadResults(before, ob), UploadResults(after, oa));
  }

  lemma UploadResultsAround(before: seq<FileInfo>, f: FileInfo, after: seq<FileInfo>,
                            ob: seq<UploadOutcome>, o: UploadOutcome, oa: seq<UploadOutcome>)
    requires |ob| == |before| && |oa| == |after|
    requires !UploadAllowed(Some(f))
    ensures UploadResults(before + [f] + after, ob + [o] + oa)
            == UploadResults(before, ob) + [None] + UploadResults(after, oa)
  {
    assert UploadResults([f], [o]) == [None];
    UploadResultsAppend(before, [f], ob, [o]);
    UploadResultsAppend(before + [f], after, ob + [o], oa);
  }

  lemma PresentSkipsNone<T>(a: seq<Option<T>>, b: seq<Option<T>>)
    ensures Present(a + [None] + b) == Present(a) + Present(b)
  {
    var none: seq<Option<T>> := [None];
    var front := a + none;
    assert none[1..] == [];
    assert Present(none) == [];
    PresentAppend(a, none);
    assert Present(front) == Present(a);
    PresentAppend(front, b);
    assert a + [None] + b == front + b;
  }

  lemma {:induction false} UploadResultsAppend(a: seq<FileInfo>, b: seq<FileInfo>, oa: seq<UploadOutcome>, ob: seq<UploadOutcome>)
    requires |oa| == |a| && |ob| == |b|
    ensures UploadResults(a + b, oa + ob) == UploadResults(a, oa) + UploadResults(b, ob)
  {
    var l := UploadResults(a + b, oa + ob);
    var m := UploadResults(a, oa) + UploadResults(b, ob);
    assert |l| == |m|;
    forall k | 0 <= k < |l| ensures l[k] == m[k] {
      if k < |a| {
        assert (a + b)[k] == a[k] && (oa + ob)[k] == oa[k];
      } else {
        assert (a + b)[k] == b[k - |a|] && (oa + ob)[k] == ob[k - |a|];
      }
    }
  }

  lemma {:induction false} PresentAppend<T>(a: seq<Option<T>>, b: seq<Option<T>>)
    ensures Present(a + b) == Present(a) + Present(b)
  {
    if a != [] {
      PresentAppend(a[1..], b);
      assert (a + b)[1..] == a[1..] + b;
    } else {
      assert a + b == b;
    }
  }
}
