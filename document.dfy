/** The document service: uploads checked by file name, and edits that splice a token into
    a document's text or cut a character range out of it. The database is a table from
    primary keys to documents. */
module Documents {
  import opened Wrappers
  import opened Text

  /** An HTTP error raised to the client. */
  datatype HttpError = HttpError(status: int, detail: string)

  const NoFileProvided := HttpError(422, "No file provided.")
  const UnsupportedFile := HttpError(400, "Only .txt and .rtf files are supported.")
  const DocumentNotFound := HttpError(404, "Document not found")

  /** A stored document. */
  datatype Document = Document(userId: int, title: string, content: string)

  /** `name.split(".")[-1]`: what follows the last dot, or the whole name when it has none. */
  function Extension(name: string): (r: string)
    ensures |r| <= |name| && '.' !in r
    decreases |name|
  {
    if name == [] then []
    else if name[|name| - 1] == '.' then []
    else Extension(name[..|name| - 1]) + [name[|name| - 1]]
  }

  /** The extension is the longest dot-free end of the name: a suffix of it, and either the
      whole name or preceded by a dot. */
  lemma {:induction false} ExtensionIsLastPiece(name: string)
    ensures var r := Extension(name);
      r == name[|name| - |r|..] && (|r| == |name| || name[|name| - |r| - 1] == '.')
    decreases |name|
  {
    if name != [] && name[|name| - 1] != '.' {
      var init := name[..|name| - 1];
      var c := name[|name| - 1];
      ExtensionIsLastPiece(init);
      var q := Extension(init);
      var r := q + [c];
      assert Extension(name) == r;
      assert name == init + [c];
      assert name[|name| - |r|..] == init[|init| - |q|..] + [c];
      if |q| < |init| {
        assert name[|name| - |r| - 1] == init[|init| - |q| - 1];
      }
    }
  }

  /** A name without a dot is its own extension. */
  lemma {:induction false} ExtensionWithoutDot(name: string)
    requires '.' !in name
    ensures Extension(name) == name
    decreases |name|
  {
    if name != [] {
      var init := name[..|name| - 1];
      assert forall i :: 0 <= i < |init| ==> init[i] == name[i];
      assert '.' !in init;
      ExtensionWithoutDot(init);
      assert init + [name[|name| - 1]] == name;
    }
  }

  /** The extension of `stem.ext` is `ext` whenever `ext` has no dot. */
  lemma ExtensionAfterDot(stem: string, ext: string)
    requires '.' !in ext
    ensures Extension(stem + "." + ext) == ext
  {
    var name := stem + "." + ext;
    ExtensionIsLastPiece(name);
    var r := Extension(name);
    assert name[|stem|] == '.';
    if |r| > |ext| {
      assert false;
    } else if |r| < |ext| {
      assert false;
    }
    assert name[|stem| + 1..] == ext;
  }

  /** The checks of `create_document_from_file`: a missing or empty file name first, then the
      extension against the accepted ones. */
  function CheckUpload(filename: Option<string>, accepted: set<string>): Outcome<HttpError> {
    if filename.None? || filename.value == [] then Fail(NoFileProvided)
    else if Extension(filename.value) !in accepted then Fail(UnsupportedFile)
    else Pass
  }

  /** An upload passes exactly when it has a non-empty name with an accepted extension; a
      missing name is reported before an unsupported extension. */
  lemma CheckUploadCases(filename: Option<string>, accepted: set<string>)
    ensures CheckUpload(filename, accepted) == Pass
      <==> filename.Some? && filename.value != [] && Extension(filename.value) in accepted
    ensures CheckUpload(filename, accepted) == Fail(NoFileProvided)
      <==> filename.None? || filename.value == []
    ensures CheckUpload(filename, accepted) == Fail(UnsupportedFile)
      <==> filename.Some? && filename.value != [] && Extension(filename.value) !in accepted
  {
  }

  /** The document an upload creates: the user's, titled by the file name, holding the
      decoded file content. */
  function UploadedDocument(userId: int, filename: Option<string>, content: string, accepted: set<string>): (r: Result<Document, HttpError>)
    ensures r.Ok? <==> CheckUpload(filename, accepted) == Pass
    ensures r.Ok? ==> r.value == Document(userId, filename.value, content)
    ensures r.Err? ==> Fail(r.error) == CheckUpload(filename, accepted)
  {
    var check := CheckUpload(filename, accepted);
    if check.Fail? then Err(check.error) else Ok(Document(userId, filename.value, content))
  }

  /** `content[:at] + token + content[at:]`, with Python's slice bounds. */
  function Insert(content: string, at: int, token: string): string {
    Before(content, at) + token + After(content, at)
  }

  /** Inside the text, the token lands at `at`, between the text before and after it. */
  lemma InsertInRange(content: string, at: int, token: string)
    requires 0 <= at <= |content|
    ensures var r := Insert(content, at, token);
      |r| == |content| + |token| && r[..at] == content[..at]
      && r[at..at + |token|] == token && r[at + |token|..] == content[at..]
  {
  }

  /** Any other index counts from the end or is clamped, so the text is never lost: it is
      still there around the token. */
  lemma InsertKeepsText(content: string, at: int, token: string)
    ensures var k := SliceIndex(at, |content|);
      Insert(content, at, token) == content[..k] + token + content[k..]
  {
  }

  /** `content[:char_start] + content[char_end:]` as the source writes it. */
  function DeleteAsWritten(content: string, start: int, end: int): string {
    Before(content, start) + After(content, end)
  }

  /** With the bounds in order, the source removes exactly the range. */
  lemma DeleteAsWrittenInRange(content: string, start: int, end: int)
    requires 0 <= start <= end <= |content|
    ensures DeleteAsWritten(content, start, end) == content[..start] + content[end..]
    ensures |DeleteAsWritten(content, start, end)| == |content| - (end - start)
  {
  }

  /** With the bounds reversed, the source does not delete: it repeats the text between
      them, so the document grows. */
  lemma DeleteAsWrittenReversed(content: string, start: int, end: int)
    requires 0 <= end < start <= |content|
    ensures DeleteAsWritten(content, start, end)
      == content[..start] + content[end..start] + content[start..]
    ensures |DeleteAsWritten(content, start, end)| == |content| + (start - end)
  {
    assert content[end..] == content[end..start] + content[start..];
  }

  /** The smallest case: deleting from 2 to 0 in "ab" yields "abab". */
  lemma DeleteAsWrittenDuplicates()
    ensures DeleteAsWritten("ab", 2, 0) == "abab"
  {
    DeleteAsWrittenReversed("ab", 2, 0);
    assert "ab"[..2] == "ab" && "ab"[0..2] == "ab" && "ab"[2..] == [];
  }

  /** `content[char_start:char_end]`: Python's slice, empty when the bounds cross. */
  function Slice(content: string, start: int, end: int): (r: string)
    ensures |r| <= |content|
  {
    var i := SliceIndex(start, |content|);
    var j := SliceIndex(end, |content|);
    if i < j then content[i..j] else []
  }

  /** The deletion the service means: the text with the slice `content[char_start:char_end]`
      taken out, so nothing is removed when the bounds cross. */
  function Delete(content: string, start: int, end: int): string {
    var i := SliceIndex(start, |content|);
    var j := SliceIndex(end, |content|);
    content[..i] + content[if i < j then j else i..]
  }

  /** The deletion is the text around the slice, with the slice taken out: it never adds
      text, and shrinks by the slice's length. */
  lemma DeleteRemovesSlice(content: string, start: int, end: int)
    ensures Before(content, start) + Slice(content, start, end)
      + content[|Before(content, start)| + |Slice(content, start, end)|..] == content
    ensures Delete(content, start, end)
      == Before(content, start) + content[|Before(content, start)| + |Slice(content, start, end)|..]
    ensures |Delete(content, start, end)| == |content| - |Slice(content, start, end)|
  {
    var i := SliceIndex(start, |content|);
    var j := SliceIndex(end, |content|);
    if i < j {
      assert content[..i] + content[i..j] + content[j..] == content;
    } else {
      assert content[..i] + [] + content[i..] == content;
    }
  }

  /** On ordered bounds the intended deletion is what the source computes. */
  lemma DeleteAgreesInOrder(content: string, start: int, end: int)
    requires SliceIndex(start, |content|) <= SliceIndex(end, |content|)
    ensures Delete(content, start, end) == DeleteAsWritten(content, start, end)
  {
  }

  /** An empty range leaves the text as it was, whatever the index. */
  lemma DeleteEmptyRange(content: string, at: int)
    ensures Delete(content, at, at) == content
  {
    BeforeAfter(content, at);
  }

  /** Deleting the token right after inserting it restores the text. */
  lemma InsertThenDelete(content: string, at: int, token: string)
    requires 0 <= at <= |content|
    ensures Delete(Insert(content, at, token), at, at + |token|) == content
  {
    InsertInRange(content, at, token);
    var r := Insert(content, at, token);
    assert r[..at] + r[at + |token|..] == content[..at] + content[at..];
  }

  /** The document table the service reads and updates. */
  class DocumentTable {
    var documents: map<int, Document>

    constructor (documents: map<int, Document>)
      ensures this.documents == documents
    {
      this.documents := documents;
    }

    /** `get_document`: 404 when the key is unknown. */
    function Get(pk: int): (r: Result<Document, HttpError>)
      reads this
      ensures r.Ok? <==> pk in documents
      ensures r.Ok? ==> r.value == documents[pk]
      ensures r.Err? ==> r.error == DocumentNotFound
    {
      if pk in documents then Ok(documents[pk]) else Err(DocumentNotFound)
    }

    /** `insert_document_token`: 404 before any change; otherwise only that document's
        content is replaced by the splice. */
    method InsertToken(pk: int, at: int, token: string) returns (r: Outcome<HttpError>)
      modifies this
      ensures pk !in old(documents) ==> r == Fail(DocumentNotFound) && documents == old(documents)
      ensures pk in old(documents) ==>
        (r == Pass
         && documents == old(documents)[pk := old(documents)[pk].(content := Insert(old(documents)[pk].content, at, token))])
    {
      var document := Get(pk);
      if document.Err? {
        return Fail(document.error);
      }
      var content := document.value.content;
      var before := Before(content, at);
      var after := After(content, at);
      documents := documents[pk := document.value.(content := before + token + after)];
      r := Pass;
    }

    /** `delete_document_token` as written: 404 before any change; otherwise only that
        document's content is replaced by the text before `start` followed by the text from
        `end` on, which repeats text when the bounds cross. */
    method DeleteToken(pk: int, start: int, end: int) returns (r: Outcome<HttpError>)
      modifies this
      ensures pk !in old(documents) ==> r == Fail(DocumentNotFound) && documents == old(documents)
      ensures pk in old(documents) ==>
        (r == Pass
         && documents == old(documents)[pk := old(documents)[pk].(content := DeleteAsWritten(old(documents)[pk].content, start, end))])
    {
      var document := Get(pk);
      if document.Err? {
        return Fail(document.error);
      }
      var content := document.value.content;
      var before := Before(content, start);
      var after := After(content, end);
      documents := documents[pk := document.value.(content := before + after)];
      r := Pass;
    }

    /** `delete_document_token` as evidently intended: 404 before any change; otherwise only
        that document's content loses the range, and crossed bounds remove nothing. */
    method DeleteTokenIntended(pk: int, start: int, end: int) returns (r: Outcome<HttpError>)
      modifies this
      ensures pk !in old(documents) ==> r == Fail(DocumentNotFound) && documents == old(documents)
      ensures pk in old(documents) ==>
        (r == Pass
         && documents == old(documents)[pk := old(documents)[pk].(content := Delete(old(documents)[pk].content, start, end))])
    {
      var document := Get(pk);
      if document.Err? {
        return Fail(document.error);
      }
      var content := document.value.content;
      documents := documents[pk := document.value.(content := Delete(content, start, end))];
      r := Pass;
    }
  }
}
