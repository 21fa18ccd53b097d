/** The new-case form: the required-field check on submit, the tag parser and the guard on
    asking for a generated description. */
module NewCase {
  import opened Wrappers
  import opened Lists
  import opened Text
  import opened Types

  function TrimPiece(): string -> string {
    (s: string) => Trim(s)
  }

  function NonEmpty(): string -> bool {
    (s: string) => s != ""
  }

  /** `tags.split(',').map(tag => tag.trim()).filter(Boolean)`. */
  function ParseTags(s: string): seq<string> {
    Filter(Map(Split(s, ','), TrimPiece()), NonEmpty())
  }

  /** A tag as the parser hands it over: non-empty, no comma, no whitespace at either end. */
  predicate CleanTag(t: string) {
    t != "" && ',' !in t && !IsSpace(t[0]) && !IsSpace(t[|t| - 1])
  }

  /** Trimming a comma-free piece that is not all blanks gives a clean tag. */
  lemma TrimmedPieceClean(p: string)
    requires ',' !in p && Trim(p) != ""
    ensures CleanTag(Trim(p))
  {
    TrimSlice(p);
    var a, b :| 0 <= a <= b <= |p| && Trim(p) == p[a..b] && AllSpace(p[..a]) && AllSpace(p[b..]);
    assert forall c :: c in p[a..b] ==> c in p;
  }

  lemma ParsedTagClean(s: string, k: int)
    requires 0 <= k < |ParseTags(s)|
    ensures CleanTag(ParseTags(s)[k])
  {
    var pieces := Split(s, ',');
    var trimmed := Map(pieces, TrimPiece());
    var t := ParseTags(s)[k];
    assert t in trimmed;
    var i :| 0 <= i < |trimmed| && trimmed[i] == t;
    assert t == Trim(pieces[i]) && t != "";
    TrimmedPieceClean(pieces[i]);
  }

  /** Every parsed tag is clean. */
  lemma ParseTagsClean(s: string)
    ensures forall k :: 0 <= k < |ParseTags(s)| ==> CleanTag(ParseTags(s)[k])
  {
    forall k | 0 <= k < |ParseTags(s)| ensures CleanTag(ParseTags(s)[k]) {
      ParsedTagClean(s, k);
    }
  }

  /** Tags keep their order: the tags of two comma-joined inputs are the tags of the first
      followed by the tags of the second. */
  lemma ParseTagsAppend(a: string, b: string)
    ensures ParseTags(a + [','] + b) == ParseTags(a) + ParseTags(b)
  {
    SplitAppend(a, b, ',');
    MapAppend(Split(a, ','), Split(b, ','), TrimPiece());
    FilterAppend(Map(Split(a, ','), TrimPiece()), Map(Split(b, ','), TrimPiece()), NonEmpty());
  }

  /** Parsing the comma-joined list of clean tags gives back that list. */
  lemma ParseTagsJoin(tags: seq<string>)
    requires |tags| >= 1 && forall k :: 0 <= k < |tags| ==> CleanTag(tags[k])
    ensures ParseTags(Join(tags, ',')) == tags
  {
    assert forall k :: 0 <= k < |tags| ==> ',' !in tags[k];
    SplitJoin(tags, ',');
    TrimCleanTags(tags);
    assert forall k :: 0 <= k < |tags| ==> NonEmpty()(tags[k]);
    FilterAll(tags, NonEmpty());
  }

  /** Trimming clean tags leaves them as they are. */
  lemma TrimCleanTags(tags: seq<string>)
    requires forall k :: 0 <= k < |tags| ==> CleanTag(tags[k])
    ensures Map(tags, TrimPiece()) == tags
  {
    var trimmed := Map(tags, TrimPiece());
    forall k | 0 <= k < |tags| ensures trimmed[k] == tags[k] {
      TrimOfTrimmed(tags[k]);
    }
  }

  /** `handleSubmit`: refused unless title, description and client are all non-empty (as
      typed, not trimmed); otherwise the fields go through as they are and the tags parsed. */
  function Submit(title: string, description: string, priority: Priority, assignee: User,
                  client: string, tags: string): (r: Option<CaseDraft>)
    ensures r.None? <==> title == "" || description == "" || client == ""
    ensures r.Some? ==> r.value.title == title && r.value.description == description &&
                        r.value.priority == priority && r.value.assignee == assignee &&
                        r.value.client == client && r.value.tags == ParseTags(tags)
  {
    if title == "" || description == "" || client == "" then None
    else Some(CaseDraft(title, description, priority, assignee, client, ParseTags(tags)))
  }

  /** `handleGenerateDescription`'s guard: the title must not be blank once trimmed. */
  predicate CanGenerate(title: string) {
    Trim(title) != ""
  }

  /** Generation is refused exactly for an all-whitespace title. */
  lemma CanGenerateSpec(title: string)
    ensures CanGenerate(title) <==> !AllSpace(title)
  {
    TrimEmptyIffAllSpace(title);
  }

  /** The two guards differ: a title of blanks can be submitted but not used to generate a
      description. */
  lemma BlankTitleSubmits(priority: Priority, assignee: User)
    ensures Submit("  ", "d", priority, assignee, "c", "").Some? && !CanGenerate("  ")
  {
    CanGenerateSpec("  ");
    assert IsSpace("  "[0]) && IsSpace("  "[1]);
  }
}
