/**
 * The add-entry dialog (src/components/AdminPanel.tsx): a form of six text
 * fields and a `loading` flag. Submitting checks that the five required
 * fields are non-empty, turns the comma-separated tag text into a list, and
 * posts the entry as an admin; the outcome is a success (form cleared, list
 * reloaded, dialog closed), a refusal, or a network error.
 *
 * The `await` splits the submit handler in two: `BeginSubmit` runs up to the
 * request and `FinishSubmit` from its outcome on. Toasts, the reload and the
 * closing of the dialog are the events the handler emits, in order.
 */
module AdminPanel {
  import opened Wrappers
  import opened Text
  import opened Wire
  import VideosHandler
  import VideosClient

  // ---------------------------------------------------------------------------
  // Tag parsing: `tags.split(',').map(t => t.trim()).filter(t => t)`
  // ---------------------------------------------------------------------------

  /** A well-formed tag: not empty, no comma, no whitespace at either end. */
  predicate IsTag(t: string) {
    t != "" && ',' !in t && Stripped(t)
  }

  /** Stripping never brings in a character that was not there. */
  lemma StripKeepsOut(s: string, c: char)
    requires c !in s
    ensures c !in Strip(s)
  {
    StripIsInfix(s);
    var i :| InfixAmidSpace(s, i, Strip(s));
    forall k | 0 <= k < |Strip(s)| ensures Strip(s)[k] != c {
      assert Strip(s)[k] == s[i + k];
    }
  }

  /** Text without a comma is one piece. */
  lemma {:induction false} SplitWithoutComma(s: string)
    requires ',' !in s
    ensures Split(s, ',') == [s]
  {
    if s != [] {
      SplitWithoutComma(s[1..]);
      assert [s[0]] + s[1..] == s;
    }
  }

  /** The tags one piece contributes: its stripped text, unless that is empty. */
  function TagOf(piece: string): seq<string> {
    if Strip(piece) != "" then [Strip(piece)] else []
  }

  /** The stripped pieces that are not empty, in order. */
  function KeepTags(pieces: seq<string>): seq<string> {
    if pieces == [] then [] else TagOf(pieces[0]) + KeepTags(pieces[1..])
  }

  /** Pieces without commas leave only well-formed tags. */
  lemma {:induction false} KeepTagsWellFormed(pieces: seq<string>)
    requires forall i :: 0 <= i < |pieces| ==> ',' !in pieces[i]
    ensures forall i :: 0 <= i < |KeepTags(pieces)| ==> IsTag(KeepTags(pieces)[i])
  {
    if pieces != [] {
      KeepTagsWellFormed(pieces[1..]);
      StripKeepsOut(pieces[0], ',');
    }
  }

  /** The tag list sent for the tag text of the form. */
  function ParseTags(text: string): (tags: seq<string>)
    ensures forall i :: 0 <= i < |tags| ==> IsTag(tags[i])
  {
    SplitPiecesLackSep(text, ',');
    KeepTagsWellFormed(Split(text, ','));
    KeepTags(Split(text, ','))
  }

  /** Splitting a text that starts with `c`: a comma opens a new piece, anything else joins the first. */
  lemma SplitCons(c: char, s: string)
    ensures Split([c] + s, ',') ==
      if c == ',' then [[]] + Split(s, ',') else [[c] + Split(s, ',')[0]] + Split(s, ',')[1..]
  {
    assert ([c] + s)[1..] == s;
  }

  /** Text and a comma and more text split into the pieces of each side. */
  lemma {:induction false} SplitAppend(a: string, b: string)
    ensures Split(a + [','] + b, ',') == Split(a, ',') + Split(b, ',')
  {
    if a == [] {
      assert [] + [','] + b == [','] + b;
      SplitCons(',', b);
    } else {
      var x, tail := a[0], a[1..];
      SplitAppend(tail, b);
      SplitAppendStep(x, tail, b);
      assert [x] + tail == a;
    }
  }

  /** One step of `SplitAppend`: putting a character in front of the left side. */
  lemma SplitAppendStep(x: char, tail: string, b: string)
    requires Split(tail + [','] + b, ',') == Split(tail, ',') + Split(b, ',')
    ensures Split([x] + tail + [','] + b, ',') == Split([x] + tail, ',') + Split(b, ',')
  {
    var left, right := Split(tail, ','), Split(b, ',');
    assert [x] + tail + [','] + b == [x] + (tail + [','] + b);
    SplitCons(x, tail + [','] + b);
    SplitCons(x, tail);
    if x == ',' {
      ConcatAssoc([[]], left, right);
    } else {
      SplitAppendJoinsFirst(x, left, right);
    }
  }

  /** Gluing a character to the first piece commutes with appending more pieces. */
  lemma SplitAppendJoinsFirst(x: char, left: seq<string>, right: seq<string>)
    requires |left| >= 1
    ensures [[x] + (left + right)[0]] + (left + right)[1..] == ([[x] + left[0]] + left[1..]) + right
  {
    assert (left + right)[0] == left[0];
    assert (left + right)[1..] == left[1..] + right;
    ConcatAssoc([[x] + left[0]], left[1..], right);
  }

  lemma KeepTagsCons(piece: string, rest: seq<string>)
    ensures KeepTags([piece] + rest) == TagOf(piece) + KeepTags(rest)
  {
    assert ([piece] + rest)[1..] == rest;
  }

  lemma ConcatAssoc<T>(a: seq<T>, b: seq<T>, c: seq<T>)
    ensures a + (b + c) == (a + b) + c
  {
  }

  lemma {:induction false} KeepTagsAppend(p: seq<string>, q: seq<string>)
    ensures KeepTags(p + q) == KeepTags(p) + KeepTags(q)
  {
    if p == [] {
      assert p + q == q;
    } else {
      var x, rest := p[0], p[1..];
      assert p == [x] + rest;
      assert p + q == [x] + (rest + q);
      KeepTagsCons(x, rest + q);
      KeepTagsCons(x, rest);
      KeepTagsAppend(rest, q);
      ConcatAssoc(TagOf(x), KeepTags(rest), KeepTags(q));
    }
  }

  /** Tag parsing works piece by piece, keeping the order of the text. */
  lemma ParseTagsAppend(a: string, b: string)
    ensures ParseTags(a + [','] + b) == ParseTags(a) + ParseTags(b)
  {
    SplitAppend(a, b);
    KeepTagsAppend(Split(a, ','), Split(b, ','));
  }

  /** An empty (or all-whitespace) tag text gives no tags. */
  lemma ParseTagsOfBlank(text: string)
    requires AllSpace(text)
    ensures ParseTags(text) == []
  {
    forall k | 0 <= k < |text| ensures text[k] != ',' {
      assert IsSpace(text[k]);
    }
    SplitWithoutComma(text);
    KeepTagsCons(text, []);
    assert [text] + [] == [text];
  }

  /** Writing well-formed tags with commas between them and parsing the text gives the same tags back. */
  lemma {:induction false} ParseTagsJoin(tags: seq<string>)
    requires |tags| >= 1
    requires forall i :: 0 <= i < |tags| ==> IsTag(tags[i])
    ensures ParseTags(Join(tags, ',')) == tags
  {
    var t := tags[0];
    assert ParseTags(t) == [t] by {
      SplitWithoutComma(t);
      StripOfStripped(t);
      KeepTagsCons(t, []);
      assert [t] + [] == [t];
    }
    if |tags| > 1 {
      ParseTagsJoin(tags[1..]);
      ParseTagsAppend(t, Join(tags[1..], ','));
      assert Join(tags, ',') == t + [','] + Join(tags[1..], ',');
      assert tags == [t] + tags[1..];
    }
  }

  // ---------------------------------------------------------------------------
  // The form
  // ---------------------------------------------------------------------------

  datatype FormData = FormData(
    title: string,
    tags: string,
    externalUrl: string,
    image1Url: string,
    image2Url: string,
    image3Url: string)

  const EmptyForm: FormData := FormData("", "", "", "", "", "")

  /** `!title || !external_url || !image1_url || !image2_url || !image3_url`: no stripping here. */
  predicate MissingField(f: FormData) {
    f.title == "" || f.externalUrl == "" || f.image1Url == "" || f.image2Url == "" || f.image3Url == ""
  }

  /** The entry `addVideo` is given: the texts as typed and the parsed tags. */
  function DataOf(f: FormData): VideosClient.VideoData {
    VideosClient.VideoData(f.title, ParseTags(f.tags), f.externalUrl, f.image1Url, f.image2Url, f.image3Url)
  }

  /** The JSON `addVideo` resolves to. */
  datatype AddResult = AddResult(success: bool, error: Option<string>)

  /** How the awaited request ends: a decoded result, or a thrown error. */
  datatype Outcome = Returned(result: AddResult) | Threw

  datatype Kind = Success | Error

  /** What the handler makes happen outside the form, in order. */
  datatype Event = Toast(kind: Kind, description: string) | VideoAdded | Close

  class Panel {
    var loading: bool
    var form: FormData

    constructor ()
      ensures !loading && form == EmptyForm
    {
      loading := false;
      form := EmptyForm;
    }

    /** Typing into the inputs. */
    method Fill(f: FormData)
      modifies this
      ensures form == f && loading == old(loading)
    {
      form := f;
    }

    /**
     * `handleSubmit` up to the request: with a required field empty it only
     * shows an error; otherwise it sets `loading` and asks for `addVideo` of
     * the form's entry, always as an admin.
     */
    method BeginSubmit() returns (request: Option<(VideosClient.VideoData, bool)>, events: seq<Event>)
      modifies this
      ensures form == old(form)
      ensures MissingField(form) ==>
        request == None && events == [Toast(Error, "Please fill in all required fields")] && loading == old(loading)
      ensures !MissingField(form) ==> request == Some((DataOf(form), true)) && events == [] && loading
    {
      if MissingField(form) {
        return None, [Toast(Error, "Please fill in all required fields")];
      }
      loading := true;
      var tags := ParseTags(form.tags);
      request := Some((VideosClient.VideoData(form.title, tags, form.externalUrl, form.image1Url,
                                              form.image2Url, form.image3Url), true));
      events := [];
    }

    /**
     * `handleSubmit` from the outcome on. A success shows its toast, clears
     * the form, then reloads the list and closes the dialog; a refusal or an
     * error keeps the form and the dialog. `loading` ends false in every case.
     */
    method FinishSubmit(outcome: Outcome) returns (events: seq<Event>)
      modifies this
      ensures !loading
      ensures Close in events <==> outcome.Returned? && outcome.result.success
      ensures VideoAdded in events <==> outcome.Returned? && outcome.result.success
      ensures outcome.Returned? && outcome.result.success ==>
        form == EmptyForm && events == [Toast(Success, "Video added successfully"), VideoAdded, Close]
      ensures outcome.Returned? && !outcome.result.success ==>
        form == old(form) && events == [Toast(Error, MessageOr(outcome.result.error, "Failed to add video"))]
      ensures outcome.Threw? ==> form == old(form) && events == [Toast(Error, "Network error")]
    {
      if outcome.Threw? {
        events := [Toast(Error, "Network error")];
      } else if outcome.result.success {
        events := [Toast(Success, "Video added successfully")];
        form := EmptyForm;
        events := events + [VideoAdded];
        events := events + [Close];
      } else {
        events := [Toast(Error, MessageOr(outcome.result.error, "Failed to add video"))];
      }
      loading := false;
    }
  }

  /**
   * The form's check is weaker than the endpoint's: a field of blanks passes
   * the form (it is not empty) and is refused by the endpoint (it strips to
   * nothing). A title of one space, `FormData(" ", "", "u", "a", "b", "c")`,
   * is such a form.
   */
  lemma BlankFieldPassesFormOnly(f: FormData)
    requires !MissingField(f)
    requires AllSpace(f.title) || AllSpace(f.externalUrl) || AllSpace(f.image1Url) ||
             AllSpace(f.image2Url) || AllSpace(f.image3Url)
    ensures VideosHandler.MissingRequired(VideosClient.AddBody(DataOf(f)))
  {
    VideosClient.AddBodyRefusedIff(DataOf(f));
  }

  /** Conversely, a form the endpoint accepts always passes the form's own check. */
  lemma EndpointAcceptedPassesForm(f: FormData)
    requires !VideosHandler.MissingRequired(VideosClient.AddBody(DataOf(f)))
    ensures !MissingField(f)
  {
    VideosClient.AddBodyRefusedIff(DataOf(f));
  }
}
