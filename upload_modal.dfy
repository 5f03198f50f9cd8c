/**
 * The upload dialog: choosing a file fills in an empty title with the file name
 * less its extension and an empty customId with a slug of it; submitting sends
 * the form only when file, customId and title are all present; the request
 * resolves on a 2xx status.
 */
module UploadModal {
  import opened Common
  import opened Text
  import opened Numbers
  import Routes

  // ---------------------------------------------------------------- title and customId

  /** Index of the last occurrence of c, if any. */
  function LastIndexOf(s: string, c: char): (r: Option<nat>)
    ensures r.None? <==> c !in s
    ensures r.Some? ==> r.value < |s| && s[r.value] == c && c !in s[r.value + 1..]
  {
    if s == [] then None
    else if s[|s| - 1] == c then Some(|s| - 1)
    else
      var front := s[..|s| - 1];
      assert s == front + [s[|s| - 1]];
      match LastIndexOf(front, c)
      case None => None
      case Some(i) =>
        assert s[i + 1..] == front[i + 1..] + [s[|s| - 1]];
        Some(i)
  }

  /**
   * `name.replace(/\.[^/.]+$/, "")`: a final '.' followed by at least one
   * character, none of them '/' or '.', is removed with what follows it.
   */
  function StripExtension(name: string): (r: string)
    ensures StartsWith(name, r)
    ensures '.' !in name ==> r == name
    ensures r != name ==>
      && |r| + 1 < |name| && name[|r|] == '.'
      && '.' !in name[|r| + 1..] && '/' !in name[|r| + 1..]
  {
    match LastIndexOf(name, '.')
    case None => name
    case Some(i) => if i + 1 < |name| && '/' !in name[i + 1..] then name[..i] else name
  }

  /** A name ending in ".ext", with ext non-empty and free of '.' and '/', loses exactly that. */
  lemma StripExtensionOf(base: string, ext: string)
    requires ext != [] && '.' !in ext && '/' !in ext
    ensures StripExtension(base + "." + ext) == base
  {
    var name := base + "." + ext;
    assert name[|base|] == '.';
    assert name[|base| + 1..] == ext;
    assert name[..|base|] == base;
    var i := LastIndexOf(name, '.').value;
    forall k | |base| < k < |name|
      ensures name[k] != '.'
    {
      assert name[k] == ext[k - |base| - 1];
    }
    forall k | i < k < |name|
      ensures name[k] != '.'
    {
      assert name[k] == name[i + 1..][k - i - 1];
    }
    assert i == |base|;
  }

  /** `[a-z0-9]`. */
  predicate IsIdChar(c: char) {
    'a' <= c <= 'z' || '0' <= c <= '9'
  }

  /** `.replace(/[^a-z0-9]/g, "-")`. */
  function Dashify(s: string): (r: string)
    ensures |r| == |s|
    ensures forall k :: 0 <= k < |s| ==> r[k] == if IsIdChar(s[k]) then s[k] else '-'
  {
    if s == [] then [] else [if IsIdChar(s[0]) then s[0] else '-'] + Dashify(s[1..])
  }

  predicate SlugAlphabet(s: string) {
    forall k :: 0 <= k < |s| ==> IsIdChar(s[k]) || s[k] == '-'
  }

  predicate NoDoubleDash(s: string) {
    forall k :: 0 <= k < |s| - 1 ==> !(s[k] == '-' && s[k + 1] == '-')
  }

  /** `.replace(/-+/g, "-")`: every run of dashes becomes a single one. */
  function CollapseDashes(s: string): (r: string)
    ensures |r| <= |s|
    ensures NoDoubleDash(r)
    ensures forall c :: c in r ==> c in s
    ensures s != [] ==> r != [] && r[0] == s[0] && r[|r| - 1] == s[|s| - 1]
    decreases |s|
  {
    if |s| <= 1 then s
    else if s[0] == '-' && s[1] == '-' then CollapseDashes(s[1..])
    else
      var rest := CollapseDashes(s[1..]);
      assert rest[0] == s[1];
      [s[0]] + rest
  }

  /** Text without a double dash is left as it is. */
  lemma {:induction false} CollapseFixed(s: string)
    requires NoDoubleDash(s)
    ensures CollapseDashes(s) == s
    decreases |s|
  {
    if |s| > 1 {
      CollapseFixed(s[1..]);
    }
  }

  /** `.replace(/^-|-$/g, "")`: one leading and one trailing dash are removed. */
  function TrimDashes(s: string): (r: string)
    ensures forall c :: c in r ==> c in s
    ensures NoDoubleDash(s) ==> NoDoubleDash(r) && (r == [] || (r[0] != '-' && r[|r| - 1] != '-'))
    ensures (s == [] || (s[0] != '-' && s[|s| - 1] != '-')) ==> r == s
  {
    var a := if s != [] && s[0] == '-' then s[1..] else s;
    if a != [] && a[|a| - 1] == '-' then a[..|a| - 1] else a
  }

  /** A customId as the dialog derives them: `[a-z0-9]` and single dashes, no dash at either end. */
  predicate WellFormedId(s: string) {
    SlugAlphabet(s) && NoDoubleDash(s) && (s == [] || (s[0] != '-' && s[|s| - 1] != '-'))
  }

  /** The customId derived from a file name. */
  function DeriveCustomId(name: string): (r: string)
    ensures WellFormedId(r)
  {
    var d := Dashify(ToLower(StripExtension(name)));
    var c := CollapseDashes(d);
    var r := TrimDashes(c);
    assert SlugAlphabet(d);
    SlugAlphabetKept(d, c);
    SlugAlphabetKept(c, r);
    r
  }

  /** Text made only of characters of a slug is in the slug alphabet. */
  lemma SlugAlphabetKept(s: string, t: string)
    requires SlugAlphabet(s) && forall c :: c in t ==> c in s
    ensures SlugAlphabet(t)
  {
    forall k | 0 <= k < |t|
      ensures IsIdChar(t[k]) || t[k] == '-'
    {
      assert t[k] in s;
    }
  }

  /** Deriving from a derived customId gives it back. */
  lemma DeriveIdempotent(name: string)
    ensures DeriveCustomId(DeriveCustomId(name)) == DeriveCustomId(name)
  {
    WellFormedFixed(DeriveCustomId(name));
  }

  lemma WellFormedFixed(s: string)
    requires WellFormedId(s)
    ensures DeriveCustomId(s) == s
  {
    assert '.' !in s;
    var a := StripExtension(s);
    assert LowerFixed(a);
    ToLowerFixed(a);
    var d := Dashify(ToLower(a));
    assert forall k :: 0 <= k < |s| ==> d[k] == s[k];
    assert d == s;
    CollapseFixed(s);
  }

  // ---------------------------------------------------------------- the dialog

  datatype PickedFile = PickedFile(name: string, size: nat, mimeType: string)

  /** The form data a submit sends; a field that is not appended is None. */
  datatype Submission = Submission(file: PickedFile, customId: string, title: string,
                                   folderId: Option<string>, description: Option<string>)

  /** `currentFolderId?.toString() || "root"`: the folder selection a fresh form starts with. */
  function FolderSelection(currentFolderId: Option<int>): (r: string)
    ensures r != ""
    ensures currentFolderId.None? <==> r == "root"
    ensures currentFolderId.Some? ==> ParseInt(r, true) == currentFolderId
  {
    match currentFolderId
    case None => "root"
    case Some(n) =>
      ParseIntOfIntToString(n, true);
      IntToString(n)
  }

  class UploadDialog {
    /** The folder being viewed when the dialog opened. */
    const currentFolderId: Option<int>
    var file: Option<PickedFile>
    var customId: string
    var title: string
    /** The selected folder: a folder id as text, or "root". */
    var folderId: string
    var description: string

    constructor (currentFolderId: Option<int>)
      ensures this.currentFolderId == currentFolderId
      ensures file.None? && customId == "" && title == "" && description == ""
      ensures folderId == FolderSelection(currentFolderId)
    {
      this.currentFolderId := currentFolderId;
      file, customId, title, description := None, "", "", "";
      folderId := FolderSelection(currentFolderId);
    }

    method ResetForm()
      modifies this
      ensures file.None? && customId == "" && title == "" && description == ""
      ensures folderId == FolderSelection(currentFolderId)
    {
      file, customId, title, description := None, "", "", "";
      folderId := FolderSelection(currentFolderId);
    }

    /**
     * A file was chosen (None: the picker was cancelled). An empty title and an
     * empty customId are derived from its name; text the user typed is kept.
     */
    method HandleFileChange(selected: Option<PickedFile>)
      modifies this
      ensures selected.None? ==> file == old(file) && title == old(title) && customId == old(customId)
      ensures selected.Some? ==>
        && file == selected
        && title == (if old(title) == "" then StripExtension(selected.value.name) else old(title))
        && customId == (if old(customId) == "" then DeriveCustomId(selected.value.name) else old(customId))
      ensures folderId == old(folderId) && description == old(description)
    {
      if selected.Some? {
        file := selected;
        if title == "" {
          title := StripExtension(selected.value.name);
        }
        if customId == "" {
          customId := DeriveCustomId(selected.value.name);
        }
      }
    }

    /**
     * The form data a submit sends, or None when file, customId or title is
     * missing. folderId goes only when set and not "root", description only
     * when non-empty.
     */
    function Submit(): (r: Option<Submission>)
      reads this
      ensures r.Some? <==> file.Some? && customId != "" && title != ""
      ensures r.Some? ==> r.value.file == file.value && r.value.customId == customId && r.value.title == title
      ensures r.Some? ==> (r.value.folderId.Some? <==> folderId != "" && folderId != "root")
      ensures r.Some? && r.value.folderId.Some? ==> r.value.folderId.value == folderId
      ensures r.Some? ==> (r.value.description.Some? <==> description != "")
      ensures r.Some? && r.value.description.Some? ==> r.value.description.value == description
    {
      if file.None? || customId == "" || title == "" then None
      else Some(Submission(file.value, customId, title,
                           if folderId != "" && folderId != "root" then Some(folderId) else None,
                           if description != "" then Some(description) else None))
    }

    /** Closing while the upload is pending does nothing; otherwise the form is reset and closed. */
    method HandleClose(pending: bool) returns (closed: bool)
      modifies this
      ensures closed <==> !pending
      ensures pending ==>
        file == old(file) && customId == old(customId) && title == old(title)
        && folderId == old(folderId) && description == old(description)
      ensures !pending ==>
        file.None? && customId == "" && title == "" && description == "" && folderId == FolderSelection(currentFolderId)
    {
      closed := !pending;
      if !pending {
        ResetForm();
      }
    }
  }

  /** A folder chosen in the dialog is the folder the server files the video under. */
  lemma SelectedFolderReachesRow(s: Submission, n: int)
    requires s.folderId == Some(IntToString(n))
    ensures Routes.UploadFolderId(s.folderId) == Some(Some(n))
  {
    ParseIntOfIntToString(n, true);
    assert IntToString(n) != "";
  }

  /** What the request's load event settles the upload to. */
  datatype XhrResult = Resolved(responseText: string) | Failed(message: string)

  /** A 2xx status resolves with the body; any other rejects with the body, or "Upload failed" when it is empty. */
  function XhrOutcome(status: int, responseText: string): (r: XhrResult)
    ensures r.Resolved? <==> 200 <= status < 300
    ensures r.Resolved? ==> r.responseText == responseText
    ensures r.Failed? ==> r.message == (if responseText != "" then responseText else "Upload failed")
  {
    if 200 <= status < 300 then Resolved(responseText)
    else Failed(if responseText != "" then responseText else "Upload failed")
  }

  /** The server's answers: 201 resolves, the 400 and 500 refusals reject. */
  lemma UploadAnswersSettle(body: string)
    ensures XhrOutcome(201, body).Resolved?
    ensures XhrOutcome(400, body).Failed? && XhrOutcome(500, body).Failed?
  {
  }
}
