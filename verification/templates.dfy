/**
 The template operations of the tracker: adding a named template at the end
 of the list and deleting by id. The fresh id is a parameter.
 */
module Templates {
  import opened Types
  import opened JsString
  import opened Seqs

  /** `addTemplate`: the trimmed name becomes a new template at the end of
      the list; a blank name is refused. */
  function AddTemplate(s: Tracker, name: string, id: string): (r: Result<Tracker>)
    ensures AllWhitespace(name) <==> r.Rejected?
    ensures r.Rejected? ==> r.why == Alert(MissingTemplateNameMessage)
    ensures r.Ok? ==>
      && |r.value.templates| == |s.templates| + 1
      && r.value.templates[..|s.templates|] == s.templates
      && r.value.templates[|s.templates|] == Template(id, Trim(name))
      && r.value.templates[|s.templates|].name != []
      && Trimmed(r.value.templates[|s.templates|].name)
      && r.value.entries == s.entries
      && r.value.editingEntryId == s.editingEntryId
  {
    var trimmed := Trim(name);
    if trimmed == [] then Rejected(Alert(MissingTemplateNameMessage))
    else Ok(s.(templates := s.templates + [Template(id, trimmed)]))
  }

  /** The filter predicate of `deleteTemplate`. */
  function OtherTemplate(id: string): Template -> bool {
    (t: Template) => t.id != id
  }

  /** `deleteTemplate`: every template with that id goes; the rest keep
      their order. */
  function DeleteTemplate(s: Tracker, id: string): (r: Tracker)
    ensures forall t :: t in r.templates ==> t.id != id
    ensures forall t :: t in s.templates && t.id != id ==> t in r.templates
    ensures forall t :: t in r.templates ==> t in s.templates
    ensures forall t :: multiset(r.templates)[t] == (if t.id != id then multiset(s.templates)[t] else 0)
    ensures Subsequence(r.templates, s.templates)
    ensures id !in TemplateIds(s.templates) ==> r == s
    ensures r.entries == s.entries && r.editingEntryId == s.editingEntryId
  {
    FilterKeepsAbsentTemplate(s.templates, id);
    s.(templates := Filter(s.templates, OtherTemplate(id)))
  }

  lemma FilterKeepsAbsentTemplate(ts: seq<Template>, id: string)
    ensures id !in TemplateIds(ts) ==> Filter(ts, OtherTemplate(id)) == ts
  {
    if id !in TemplateIds(ts) {
      FilterKeepsAll(ts, OtherTemplate(id));
    }
  }
}
