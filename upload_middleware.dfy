/** backend/middleware/uploadmiddleware.js: the image-type filter and the
    stored file name. The storage engine, the destination folder and the
    clock are outside the model; the timestamp is a parameter. */
module UploadMiddleware {
  import opened Common

  const RejectMessage := "Images only! (jpg, jpeg, png)"

  /** t is a tail of s. */
  predicate EndsWith(s: string, t: string) {
    |t| <= |s| && s[|s| - |t|..] == t
  }

  /** The position of the last '.' in s, if any. */
  function LastDot(s: string): (r: Option<nat>)
    ensures r.Some? ==> r.value < |s| && s[r.value] == '.'
                        && forall k :: r.value < k < |s| ==> s[k] != '.'
    ensures r.None? ==> forall k :: 0 <= k < |s| ==> s[k] != '.'
  {
    if s == [] then None
    else match LastDot(s[1..])
      case Some(k) => Some(k + 1)
      case None => if s[0] == '.' then Some(0) else None
  }

  /** The part after the last '/', the base name Node's path module works on:
      a tail of s without '/' that is all of s or starts right after a '/'. */
  function BaseName(s: string): (r: string)
    ensures '/' !in r
    ensures EndsWith(s, r)
    ensures |r| == |s| || s[|s| - |r| - 1] == '/'
  {
    if '/' !in s then s
    else
      var b := BaseName(s[1..]);
      assert s[|s| - |b|..] == s[1..][|s[1..]| - |b|..];
      if |b| == |s[1..]| then
        assert b == s[1..];
        assert s[0] == '/';
        b
      else
        assert s[|s| - |b| - 1] == s[1..][|s[1..]| - |b| - 1];
        b
  }

  /** `path.extname` on a name without trailing separators: from the last
      '.' of the base name to its end; empty when there is no dot, when the
      only dot opens the base name (".bashrc") or for "..". A non-empty
      result is therefore the tail of the name from its last '.', with no
      '/' in it. */
  function ExtName(name: string): (r: string)
    ensures r == [] || r[0] == '.'
    ensures EndsWith(name, r)
    ensures r != [] ==> '/' !in r && forall k :: 0 < k < |r| ==> r[k] != '.'
    ensures var b := BaseName(name);
      r == [] <==> b == ".." || forall k :: 0 < k < |b| ==> b[k] != '.'
  {
    var b := BaseName(name);
    match LastDot(b)
    case None => ""
    case Some(d) =>
      if d == 0 || b == ".." then ""
      else
        ExtensionFromDot(name, b, d);
        b[d..]
  }

  /** The tail of a base name from its last '.' is a tail of the whole name
      with that one '.' in front and no '/'. */
  lemma ExtensionFromDot(name: string, b: string, d: nat)
    requires EndsWith(name, b) && '/' !in b
    requires d < |b| && b[d] == '.' && forall k :: d < k < |b| ==> b[k] != '.'
    ensures EndsWith(name, b[d..]) && '/' !in b[d..] && b[d..][0] == '.'
    ensures forall k :: 0 < k < |b[d..]| ==> b[d..][k] != '.'
  {
    assert name[|name| - |b[d..]|..] == b[d..];
    forall k | 0 < k < |b[d..]| ensures b[d..][k] != '.' {
      assert b[d..][k] == b[d + k];
    }
  }

  /** `/jpg|jpeg|png/.test(s)`: an unanchored search for any of the three. */
  function MatchesImagePattern(s: string): (r: bool)
    ensures r <==> exists i :: OccursAt(s, "jpg", i) || OccursAt(s, "jpeg", i) || OccursAt(s, "png", i)
  {
    ContainsIff(s, "jpg");
    ContainsIff(s, "jpeg");
    ContainsIff(s, "png");
    Contains(s, "jpg") || Contains(s, "jpeg") || Contains(s, "png")
  }

  datatype Verdict = Accept | Reject(message: string)

  /** checkFileType: the lower-cased extension and the MIME type, as sent,
      must both match the pattern. */
  function CheckFileType(originalName: string, mimeType: string): (r: Verdict)
    ensures r.Accept? <==> MatchesImagePattern(ToLower(ExtName(originalName))) && MatchesImagePattern(mimeType)
    ensures r.Reject? ==> r.message == RejectMessage
  {
    if MatchesImagePattern(ToLower(ExtName(originalName))) && MatchesImagePattern(mimeType)
    then Accept else Reject(RejectMessage)
  }

  /** A pattern word anywhere in the text matches: the test is a search, not
      a whole-string match. */
  lemma PatternIsUnanchored(pre: string, word: string, post: string)
    requires word == "jpg" || word == "jpeg" || word == "png"
    ensures MatchesImagePattern(pre + word + post)
  {
    ContainsPrefix(word, post);
    assert (pre + word + post)[|pre|..] == word + post;
    ContainsInSuffix(pre + word + post, word, |pre|);
  }

  /** A stem without dots followed by an extension with a single leading
      '.' has that extension. */
  lemma ExtNameOfStemAndExtension(stem: string, ext: string)
    requires stem != [] && '.' !in stem && '/' !in stem
    requires ext != [] && ext[0] == '.' && '/' !in ext && forall k :: 0 < k < |ext| ==> ext[k] != '.'
    ensures ExtName(stem + ext) == ext
  {
    var name := stem + ext;
    var d := |stem|;
    forall k | 0 <= k < |name| ensures name[k] != '/' && (k != d ==> name[k] != '.') {
      if k < d {
        assert name[k] == stem[k];
      } else {
        assert name[k] == ext[k - d];
      }
    }
    assert BaseName(name) == name;
    assert LastDot(name) == Some(d) by {
      assert name[d] == '.';
    }
    assert name != ".." by {
      assert name[0] == stem[0];
    }
    assert name[d..] == ext;
  }

  /** A plain stem followed by ".xpngx" has the extension ".xpngx". */
  lemma ExtNameOfXpngx(stem: string)
    requires stem != [] && '.' !in stem && '/' !in stem
    ensures ExtName(stem + ".xpngx") == ".xpngx"
  {
    var ext := ".xpngx";
    assert forall k :: 0 < k < |ext| ==> ext[k] != '.' && ext[k] != '/';
    ExtNameOfStemAndExtension(stem, ext);
  }

  lemma ImagePngMatches()
    ensures MatchesImagePattern("image/png")
  {
    PatternIsUnanchored("image/", "png", "");
    assert "image/" + "png" + "" == "image/png";
  }

  lemma XpngxMatches()
    ensures MatchesImagePattern(".xpngx")
  {
    PatternIsUnanchored(".x", "png", "x");
    assert ".x" + "png" + "x" == ".xpngx";
  }

  lemma LowerXpngx()
    ensures ToLower(".xpngx") == ".xpngx"
  {
    var s := ".xpngx";
    assert forall i :: 0 <= i < |s| ==> !IsUpper(s[i]);
    assert forall i :: 0 <= i < |s| ==> ToLower(s)[i] == s[i];
  }

  /** An extension that merely contains "png" passes. */
  lemma AcceptsExtensionContainingPng(stem: string)
    requires stem != [] && '.' !in stem && '/' !in stem
    ensures CheckFileType(stem + ".xpngx", "image/png").Accept?
  {
    ExtNameOfXpngx(stem);
    LowerXpngx();
    XpngxMatches();
    ImagePngMatches();
  }

  /** The extension is lowered before the test ... */
  lemma AcceptsUpperCaseExtension(stem: string)
    requires stem != [] && '.' !in stem && '/' !in stem
    ensures CheckFileType(stem + ".PNG", "image/png").Accept?
  {
    var ext := ".PNG";
    assert forall k :: 0 < k < |ext| ==> ext[k] != '.' && ext[k] != '/';
    ExtNameOfStemAndExtension(stem, ext);
    LowerPng();
    DotPngMatches();
    ImagePngMatches();
  }

  lemma LowerPng()
    ensures ToLower(".PNG") == ".png"
  {
    var s := ".PNG";
    assert ToLower(s)[1] == 'p' && ToLower(s)[2] == 'n' && ToLower(s)[3] == 'g';
  }

  lemma DotPngMatches()
    ensures MatchesImagePattern(".png")
  {
    PatternIsUnanchored(".", "png", "");
    assert "." + "png" + "" == ".png";
  }

  /** ... but the MIME type is not. */
  lemma RejectsUpperCaseMimeType()
    ensures CheckFileType("a.png", "IMAGE/PNG").Reject?
  {
    NoPatternInUpperMime();
  }

  lemma RejectsGif()
    ensures CheckFileType("a.gif", "image/gif").Reject?
  {
    NoPatternInGif();
  }

  lemma NoPatternInUpperMime()
    ensures !MatchesImagePattern("IMAGE/PNG")
  {
    NoLowerNoMatch("IMAGE/PNG", "jpg");
    NoLowerNoMatch("IMAGE/PNG", "jpeg");
    NoLowerNoMatch("IMAGE/PNG", "png");
  }

  lemma NoPatternInGif()
    ensures !MatchesImagePattern("image/gif")
  {
    NoLetterNoMatch("image/gif", "jpg", 'p');
    NoLetterNoMatch("image/gif", "jpeg", 'p');
    NoLetterNoMatch("image/gif", "png", 'p');
  }

  /** A word whose first letter is lower case is not found in a string with
      no lower-case letters. */
  lemma {:induction false} NoLowerNoMatch(s: string, t: string)
    requires t != [] && IsLower(t[0])
    requires forall k :: 0 <= k < |s| ==> !IsLower(s[k])
    ensures !Contains(s, t)
  {
    if s != [] {
      assert s[0] != t[0];
      NoLowerNoMatch(s[1..], t);
    }
  }

  /** A word containing a letter the string lacks is not found in it. */
  lemma {:induction false} NoLetterNoMatch(s: string, t: string, c: char)
    requires c in t
    requires forall k :: 0 <= k < |s| ==> s[k] != c
    ensures !Contains(s, t)
  {
    if s != [] {
      var j :| 0 <= j < |t| && t[j] == c;
      if j < |s| {
        assert s[j] != t[j];
      }
      NoLetterNoMatch(s[1..], t, c);
    }
  }

  /** `${file.fieldname}-${Date.now()}${path.extname(file.originalname)}` */
  function StoredFilename(fieldName: string, now: nat, originalName: string): (r: string)
    ensures fieldName + "-" <= r && EndsWith(r, ExtName(originalName))
    ensures |r| > |fieldName| + 1 + |ExtName(originalName)|
    ensures forall k :: |fieldName| + 1 <= k < |r| - |ExtName(originalName)| ==> IsDigit(r[k])
  {
    fieldName + "-" + NatToString(now) + ExtName(originalName)
  }

  /** The stored name is the field name, a dash, the timestamp's digits and
      the original extension, and the timestamp can be read back. */
  lemma StoredFilenameParts(fieldName: string, now: nat, originalName: string)
    ensures var s := StoredFilename(fieldName, now, originalName);
      var digits := NatToString(now);
      var ext := ExtName(originalName);
      && s[..|fieldName| + 1] == fieldName + "-"
      && s[|fieldName| + 1..|fieldName| + 1 + |digits|] == digits
      && s[|fieldName| + 1 + |digits|..] == ext
      && DecimalValue(digits) == now
      && (ext == [] || ext[0] == '.')
  {
    DecimalRoundTrip(now);
  }
}
