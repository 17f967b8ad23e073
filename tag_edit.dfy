/** `_tag_create` (the `tag edit` subcommand) of the utility cog: creating
    or revising a tag in the tag collection, keyed by lower-cased name,
    with a fixed list of names reserved for the subcommands. */
module TagEdit {
  import opened Text

  /** One saved revision: when it was replaced, its content and who
      replaced it. */
  datatype Revision = Revision(stamp: int, content: string, user: int)

  /** A tag document. A deleted tag stays in the collection, inactive. */
  datatype TagDoc = TagDoc(content: string, revisions: seq<Revision>, active: bool)

  /** The subcommand names a tag may not take. */
  const Reserved: seq<string> := ["list", "search", "edit", "delete", "source", "setdesc", "setimg"]

  datatype EditOutcome = ReservedName | Updated | Created

  datatype EditResult = EditResult(outcome: EditOutcome, tags: map<string, TagDoc>)

  /** `_tag_create(name, content)` by `user` at time `now`. */
  function Edit(tags: map<string, TagDoc>, name: string, content: string, user: int, now: int): EditResult {
    var key := Lower(name);
    if key in Reserved then EditResult(ReservedName, tags)
    else if key in tags then
      var tag := tags[key];
      var revised := TagDoc(content, tag.revisions + [Revision(now, tag.content, user)], true);
      EditResult(if tag.active then Updated else Created, tags[key := revised])
    else EditResult(Created, tags[key := TagDoc(content, [], true)])
  }

  /** The collection's invariant: every name is lower case and none is
      reserved. */
  predicate WellNamed(tags: map<string, TagDoc>) {
    forall k :: k in tags ==> IsLower(k) && k !in Reserved
  }

  /** A reserved name, in any case, is refused and changes nothing; any
      other name ends up as an active tag under its lower-cased form with
      the new content, and no other tag changes. */
  lemma EditEffect(tags: map<string, TagDoc>, name: string, content: string, user: int, now: int)
    ensures var r := Edit(tags, name, content, user, now);
      && (r.outcome == ReservedName <==> Lower(name) in Reserved)
      && (r.outcome == ReservedName ==> r.tags == tags)
      && (r.outcome != ReservedName ==>
            && r.tags.Keys == tags.Keys + {Lower(name)}
            && r.tags[Lower(name)].content == content && r.tags[Lower(name)].active
            && (forall k :: k in tags && k != Lower(name) ==> r.tags[k] == tags[k]))
  {
  }

  /** Revising keeps the history: the old content is saved as the last
      revision, with who replaced it and when; a new tag starts with none.
      The reply says "updated" only for a tag that was active. */
  lemma EditKeepsRevisions(tags: map<string, TagDoc>, name: string, content: string, user: int, now: int)
    requires Lower(name) !in Reserved
    ensures var r := Edit(tags, name, content, user, now);
      var key := Lower(name);
      && (key in tags ==>
            && r.tags[key].revisions[..|tags[key].revisions|] == tags[key].revisions
            && |r.tags[key].revisions| == |tags[key].revisions| + 1
            && r.tags[key].revisions[|tags[key].revisions|] == Revision(now, tags[key].content, user))
      && (key !in tags ==> r.tags[key].revisions == [])
      && (r.outcome == Updated <==> key in tags && tags[key].active)
  {
  }

  /** Editing keeps the collection well named. */
  lemma EditKeepsWellNamed(tags: map<string, TagDoc>, name: string, content: string, user: int, now: int)
    requires WellNamed(tags)
    ensures WellNamed(Edit(tags, name, content, user, now).tags)
  {
    LowerIsLower(name);
  }
}
