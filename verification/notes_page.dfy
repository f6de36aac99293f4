/** The notes list page (`app/notes/page.tsx`): the client-side filter and sort
    pipeline over the fetched notes, and the list update after a delete. */
module NotesPage {
  import opened Wrappers
  import opened Entities
  import Text
  import Lex
  import Lists

  datatype Order = Asc | Desc

  /** The page state the pipeline reads; dates are timestamps, `None` when unset. */
  datatype Criteria = Criteria(
    query: string, selectedTags: seq<string>, dateFrom: Option<int>, dateTo: Option<int>,
    sortBy: string, order: Order)

  // ---------------------------------------------------------------------------
  // filters

  predicate NameHas(t: Tag, q: string) {
    Text.Includes(Text.ToLower(t.name), q)
  }

  /** The lowercased query occurs in the lowercased title, content or some tag name. */
  ghost predicate MatchesText(n: Note, query: string) {
    var q := Text.ToLower(query);
    || Text.Includes(Text.ToLower(n.title), q)
    || Text.Includes(Text.ToLower(n.content), q)
    || exists t :: Some(t) in n.tags && NameHas(t, q)
  }

  /** Every selected tag id is among the note's tag ids. */
  ghost predicate HasAllTags(n: Note, selected: seq<string>) {
    forall id :: id in selected ==> exists t :: Some(t) in n.tags && t.id == id
  }

  /** `note_tags?.some((nt) => nt.tags.name.toLowerCase().includes(q))`: `some` stops at
      the first match, and reaching a `null` tag before one throws, `None`. */
  function SomeNameHas(links: seq<Option<Tag>>, q: string): (r: Option<bool>)
    ensures r.None? ==> exists i :: 0 <= i < |links| && links[i].None?
    ensures r == Some(true) ==> exists t :: Some(t) in links && NameHas(t, q)
    ensures (forall i :: 0 <= i < |links| ==> links[i].Some?) ==>
              r == Some(exists t :: Some(t) in links && NameHas(t, q))
  {
    if links == [] then Some(false)
    else if links[0].None? then None
    else if NameHas(links[0].value, q) then Some(true)
    else
      var r := SomeNameHas(links[1..], q);
      assert forall t :: Some(t) in links <==> Some(t) == links[0] || Some(t) in links[1..];
      assert forall i :: 0 <= i < |links[1..]| ==> links[1..][i] == links[i + 1];
      r
  }

  /** A `null` joined tag lies before every tag whose name matches. */
  ghost predicate NullBeforeMatch(links: seq<Option<Tag>>, q: string) {
    exists i :: 0 <= i < |links| && links[i].None? &&
                forall j :: 0 <= j < i ==> links[j].Some? && !NameHas(links[j].value, q)
  }

  /** `some` throws exactly when it meets a `null` tag before a matching one. */
  lemma {:induction false} SomeNameHasThrows(links: seq<Option<Tag>>, q: string)
    ensures SomeNameHas(links, q).None? <==> NullBeforeMatch(links, q)
  {
    if links != [] {
      if links[0].None? {
      } else if NameHas(links[0].value, q) {
      } else {
        var tail := links[1..];
        SomeNameHasThrows(tail, q);
        if NullBeforeMatch(tail, q) {
          var i :| 0 <= i < |tail| && tail[i].None? &&
                   forall j :: 0 <= j < i ==> tail[j].Some? && !NameHas(tail[j].value, q);
          assert links[i + 1].None?;
          forall j | 0 <= j < i + 1 ensures links[j].Some? && !NameHas(links[j].value, q) {
            if j > 0 { assert links[j] == tail[j - 1]; }
          }
        }
        if NullBeforeMatch(links, q) {
          var i :| 0 <= i < |links| && links[i].None? &&
                   forall j :: 0 <= j < i ==> links[j].Some? && !NameHas(links[j].value, q);
          assert tail[i - 1].None?;
          forall j | 0 <= j < i - 1 ensures tail[j].Some? && !NameHas(tail[j].value, q) {
            assert tail[j] == links[j + 1];
          }
        }
      }
    }
  }

  /** `note_tags?.map((nt) => nt.tags.id)`: `None` when some joined tag is `null`. */
  function JoinedIds(links: seq<Option<Tag>>): (r: Option<seq<string>>)
    ensures r.Some? <==> forall i :: 0 <= i < |links| ==> links[i].Some?
    ensures r.Some? ==> |r.value| == |links| && forall i :: 0 <= i < |links| ==> r.value[i] == links[i].value.id
  {
    if links == [] then Some([])
    else
      var rest := JoinedIds(links[1..]);
      assert (forall i :: 0 <= i < |links| ==> links[i].Some?) <==>
               links[0].Some? && forall i :: 0 <= i < |links[1..]| ==> links[1..][i].Some? by {
        if links[0].Some? && forall i :: 0 <= i < |links[1..]| ==> links[1..][i].Some? {
          forall i | 0 <= i < |links| ensures links[i].Some? {
            if i > 0 { assert links[i] == links[1..][i - 1]; }
          }
        }
      }
      if links[0].None? || rest.None? then None
      else Some([links[0].value.id] + rest.value)
  }

  /** The text test on one note: `titleMatch || contentMatch || tagMatch`, `None` when
      computing `tagMatch` throws. */
  function TextTest(n: Note, query: string): (r: Option<bool>)
    ensures r.None? ==> !AllJoined(n)
    ensures AllJoined(n) ==> r == Some(MatchesText(n, query))
  {
    var q := Text.ToLower(query);
    match SomeNameHas(n.tags, q)
    case None => None
    case Some(tagMatch) =>
      Some(Text.Includes(Text.ToLower(n.title), q) || Text.Includes(Text.ToLower(n.content), q) || tagMatch)
  }

  /** The tag test on one note: every selected id is among its tag ids, `None` when
      collecting those ids throws. */
  function TagTest(n: Note, selected: seq<string>): (r: Option<bool>)
    ensures r.None? <==> !AllJoined(n)
    ensures AllJoined(n) ==> r == Some(HasAllTags(n, selected))
  {
    match JoinedIds(n.tags)
    case None => None
    case Some(ids) =>
      assert forall id :: id in ids <==> exists t :: Some(t) in n.tags && t.id == id by {
        forall id ensures id in ids <==> exists t :: Some(t) in n.tags && t.id == id {
          if id in ids {
            var i :| 0 <= i < |ids| && ids[i] == id;
            assert Some(n.tags[i].value) in n.tags;
          }
          if exists t :: Some(t) in n.tags && t.id == id {
            var t :| Some(t) in n.tags && t.id == id;
            var i :| 0 <= i < |n.tags| && n.tags[i] == Some(t);
            assert ids[i] == id;
          }
        }
      }
      Some(forall id :: id in selected ==> id in ids)
  }

  /** Dropped only when strictly before `from` or strictly after `to`. */
  predicate InDateRange(n: Note, from: Option<int>, to: Option<int>) {
    && !(from.Some? && n.updatedAt < from.value)
    && !(to.Some? && n.updatedAt > to.value)
  }

  predicate TextFilterActive(c: Criteria) {
    !Text.IsBlank(c.query)
  }

  predicate NoActiveFilter(c: Criteria) {
    !TextFilterActive(c) && c.selectedTags == [] && c.dateFrom.None? && c.dateTo.None?
  }

  /** A note passes every filter the criteria switch on. */
  predicate Passes(n: Note, c: Criteria) {
    && (TextFilterActive(c) ==> TextTest(n, c.query) == Some(true))
    && (c.selectedTags != [] ==> TagTest(n, c.selectedTags) == Some(true))
    && InDateRange(n, c.dateFrom, c.dateTo)
  }

  /** For a note whose join rows all reached their tags, passing means matching the
      text (when searched), holding every selected tag, and lying in the date range. */
  lemma PassesJoined(n: Note, c: Criteria)
    requires AllJoined(n)
    ensures Passes(n, c) <==>
              && (TextFilterActive(c) ==> MatchesText(n, c.query))
              && HasAllTags(n, c.selectedTags)
              && InDateRange(n, c.dateFrom, c.dateTo)
  {
  }

  /** `filterAndSortNotes` throws: the text test throws on some note, or the tag test
      throws on some note the text filter kept. */
  predicate Throws(notes: seq<Note>, c: Criteria) {
    || (TextFilterActive(c) && exists n :: n in notes && TextTest(n, c.query).None?)
    || (c.selectedTags != [] &&
        exists n :: n in notes && (TextFilterActive(c) ==> TextTest(n, c.query) == Some(true)) &&
                    TagTest(n, c.selectedTags).None?)
  }

  /** A note with a `null` joined tag makes any tag selection throw, when no text
      search is active to drop it first. */
  lemma NullTagBreaksSelection(notes: seq<Note>, c: Criteria, n: Note)
    requires n in notes && !AllJoined(n)
    requires c.selectedTags != [] && !TextFilterActive(c)
    ensures Throws(notes, c)
  {
  }

  lemma UntaggedFailsSelection(n: Note, selected: seq<string>)
    requires n.tags == [] && selected != []
    ensures !HasAllTags(n, selected)
  {
    assert selected[0] in selected;
  }

  // ---------------------------------------------------------------------------
  // comparator

  /** `aValue < bValue` for the chosen key: lowercased titles compare as strings,
      the two timestamps as numbers; any other `sortBy` means `updated_at`. */
  predicate KeyLess(a: Note, b: Note, sortBy: string) {
    if sortBy == "title" then Lex.Lt(Text.ToLower(a.title), Text.ToLower(b.title))
    else if sortBy == "created_at" then a.createdAt < b.createdAt
    else a.updatedAt < b.updatedAt
  }

  /** The comparator passed to `sort`. */
  function Compare(a: Note, b: Note, sortBy: string, order: Order): (r: int)
    ensures r == -1 || r == 0 || r == 1
    ensures r == 0 <==> !KeyLess(a, b, sortBy) && !KeyLess(b, a, sortBy)
  {
    if KeyLess(a, b, sortBy) then (if order == Asc then -1 else 1)
    else if KeyLess(b, a, sortBy) then (if order == Asc then 1 else -1)
    else 0
  }

  /** `a` may precede `b` in the sorted output. */
  function Precedes(sortBy: string, order: Order): (Note, Note) -> bool {
    (a: Note, b: Note) => Compare(a, b, sortBy, order) <= 0
  }

  lemma KeyLessAsym(a: Note, b: Note, sortBy: string)
    ensures !(KeyLess(a, b, sortBy) && KeyLess(b, a, sortBy))
  {
    if sortBy == "title" {
      Lex.LtAsym(Text.ToLower(a.title), Text.ToLower(b.title));
    }
  }

  lemma KeyNotLessTrans(a: Note, b: Note, c: Note, sortBy: string)
    requires !KeyLess(b, a, sortBy) && !KeyLess(c, b, sortBy)
    ensures !KeyLess(c, a, sortBy)
  {
    if sortBy == "title" {
      Lex.NotLtTrans(Text.ToLower(a.title), Text.ToLower(b.title), Text.ToLower(c.title));
    }
  }

  /** The comparator is consistent: swapping the arguments negates it. */
  lemma CompareAntisymmetric(a: Note, b: Note, sortBy: string, order: Order)
    ensures Compare(a, b, sortBy, order) == -Compare(b, a, sortBy, order)
  {
    KeyLessAsym(a, b, sortBy);
  }

  /** Ascending: `a` may precede `b` iff its key is not greater; descending: not smaller. */
  lemma PrecedesMeaning(a: Note, b: Note, sortBy: string, order: Order)
    ensures Precedes(sortBy, order)(a, b) <==>
              if order == Asc then !KeyLess(b, a, sortBy) else !KeyLess(a, b, sortBy)
  {
    KeyLessAsym(a, b, sortBy);
  }

  lemma PrecedesIsTotalPreorder(sortBy: string, order: Order)
    ensures Lists.IsTotalPreorder(Precedes(sortBy, order))
  {
    var le := Precedes(sortBy, order);
    forall a, b ensures le(a, b) || le(b, a) {
      PrecedesMeaning(a, b, sortBy, order);
      PrecedesMeaning(b, a, sortBy, order);
      KeyLessAsym(a, b, sortBy);
    }
    forall a, b, c | le(a, b) && le(b, c) ensures le(a, c) {
      PrecedesMeaning(a, b, sortBy, order);
      PrecedesMeaning(b, c, sortBy, order);
      PrecedesMeaning(a, c, sortBy, order);
      if order == Asc {
        KeyNotLessTrans(a, b, c, sortBy);
      } else {
        KeyNotLessTrans(c, b, a, sortBy);
      }
    }
  }

  // ---------------------------------------------------------------------------
  // pipeline

  /** The output order the sort promises for the criteria. */
  predicate SortedFor(s: seq<Note>, c: Criteria) {
    forall i, j :: 0 <= i < j < |s| ==>
      if c.order == Asc then !KeyLess(s[j], s[i], c.sortBy) else !KeyLess(s[i], s[j], c.sortBy)
  }

  /** Sorting with the page's comparator only reorders, and orders by the chosen key. */
  lemma SortOutcome(s: seq<Note>, c: Criteria)
    ensures multiset(Lists.SortBy(s, Precedes(c.sortBy, c.order))) == multiset(s)
    ensures SortedFor(Lists.SortBy(s, Precedes(c.sortBy, c.order)), c)
  {
    var r := Lists.SortBy(s, Precedes(c.sortBy, c.order));
    PrecedesIsTotalPreorder(c.sortBy, c.order);
    Lists.SortBySorted(s, Precedes(c.sortBy, c.order));
    forall i, j | 0 <= i < j < |r|
      ensures if c.order == Asc then !KeyLess(r[j], r[i], c.sortBy) else !KeyLess(r[i], r[j], c.sortBy)
    {
      PrecedesMeaning(r[i], r[j], c.sortBy, c.order);
    }
  }

  /** The elements a step keeps: all of them when inactive, else those the test passes. */
  function Keeps(active: bool, test: Note -> Option<bool>): Note -> bool {
    (n: Note) => !active || test(n) == Some(true)
  }

  /** The notes that pass every filter the criteria switch on. */
  function Passing(c: Criteria): Note -> bool {
    (n: Note) => Passes(n, c)
  }

  /** One step of the pipeline, `filtered.filter(test)` when the step is active.
      `filter` runs the test on every element, so the step throws (`None`) when the
      test throws on any of them. */
  function Step(s: seq<Note>, active: bool, test: Note -> Option<bool>): (r: Option<seq<Note>>)
    ensures r.None? <==> active && exists n :: n in s && test(n).None?
    ensures !active ==> r == Some(s)
    ensures r.Some? ==> r.value == Lists.Filter(s, Keeps(active, test))
  {
    if s == [] then Some([])
    else
      var rest := Step(s[1..], active, test);
      var head := if active then test(s[0]) else Some(true);
      assert s == [s[0]] + s[1..];
      assert forall n :: n in s <==> n == s[0] || n in s[1..];
      if head.None? || rest.None? then None
      else Some((if head.value then [s[0]] else []) + rest.value)
  }

  function TextTestOf(query: string): Note -> Option<bool> {
    (n: Note) => TextTest(n, query)
  }

  function TagTestOf(selected: seq<string>): Note -> Option<bool> {
    (n: Note) => TagTest(n, selected)
  }

  function DateTestOf(from: Option<int>, to: Option<int>): Note -> Option<bool> {
    (n: Note) => Some(InDateRange(n, from, to))
  }

  /** The text step followed by the tag step throws exactly when `Throws` says. */
  lemma PipelineThrows(notes: seq<Note>, c: Criteria)
    ensures var afterText := Step(notes, TextFilterActive(c), TextTestOf(c.query));
            afterText.None? || Step(afterText.value, c.selectedTags != [], TagTestOf(c.selectedTags)).None?
            <==> Throws(notes, c)
  {
    var afterText := Step(notes, TextFilterActive(c), TextTestOf(c.query));
    if afterText.Some? {
      assert forall n :: n in afterText.value <==>
                         n in notes && Keeps(TextFilterActive(c), TextTestOf(c.query))(n);
    }
  }

  /** When nothing throws, the three steps together keep exactly the passing notes,
      in their original order. */
  lemma PipelineFilters(notes: seq<Note>, c: Criteria, afterText: seq<Note>, afterTags: seq<Note>)
    requires Step(notes, TextFilterActive(c), TextTestOf(c.query)) == Some(afterText)
    requires Step(afterText, c.selectedTags != [], TagTestOf(c.selectedTags)) == Some(afterTags)
    ensures Step(afterTags, c.dateFrom.Some? || c.dateTo.Some?, DateTestOf(c.dateFrom, c.dateTo))
            == Some(Lists.Filter(notes, Passing(c)))
  {
    var k1 := Keeps(TextFilterActive(c), TextTestOf(c.query));
    var k2 := Keeps(c.selectedTags != [], TagTestOf(c.selectedTags));
    var k3 := Keeps(c.dateFrom.Some? || c.dateTo.Some?, DateTestOf(c.dateFrom, c.dateTo));
    var k12 := (n: Note) => k1(n) && k2(n);
    assert afterText == Lists.Filter(notes, k1);
    assert afterTags == Lists.Filter(afterText, k2);
    var afterDates := Step(afterTags, c.dateFrom.Some? || c.dateTo.Some?, DateTestOf(c.dateFrom, c.dateTo));
    assert afterDates.Some?;
    assert afterDates.value == Lists.Filter(afterTags, k3);
    Lists.FilterThen(notes, k1, k2, k12);
    forall n | n in notes ensures Passing(c)(n) == (k12(n) && k3(n)) {
      PassingSplits(n, c);
    }
    Lists.FilterThen(notes, k12, k3, Passing(c));
  }

  /** Passing is keeping through each of the three steps. */
  lemma PassingSplits(n: Note, c: Criteria)
    ensures Passing(c)(n) == (&& Keeps(TextFilterActive(c), TextTestOf(c.query))(n)
                              && Keeps(c.selectedTags != [], TagTestOf(c.selectedTags))(n)
                              && Keeps(c.dateFrom.Some? || c.dateTo.Some?, DateTestOf(c.dateFrom, c.dateTo))(n))
  {
  }

  /** `filterAndSortNotes`: narrows a copy of `notes` filter by filter, then sorts it.
      `None`: a test threw, so the list shown is not updated. */
  method FilterAndSortNotes(notes: seq<Note>, c: Criteria) returns (filtered: Option<seq<Note>>)
    ensures filtered.None? <==> Throws(notes, c)
    ensures (forall n | n in notes :: AllJoined(n)) ==> filtered.Some?
    ensures filtered.Some? ==> multiset(filtered.value) == multiset(Lists.Filter(notes, Passing(c)))
    ensures filtered.Some? ==> multiset(filtered.value) <= multiset(notes)
    ensures filtered.Some? ==> forall n :: n in filtered.value <==> n in notes && Passes(n, c)
    ensures NoActiveFilter(c) ==> filtered.Some? && multiset(filtered.value) == multiset(notes)
    ensures filtered.Some? ==> SortedFor(filtered.value, c)
  {
    PipelineThrows(notes, c);
    var afterText := Step(notes, TextFilterActive(c), TextTestOf(c.query));
    if afterText.None? {
      return None;
    }
    var afterTags := Step(afterText.value, |c.selectedTags| > 0, TagTestOf(c.selectedTags));
    if afterTags.None? {
      return None;
    }
    var afterDates := Step(afterTags.value, c.dateFrom.Some? || c.dateTo.Some?, DateTestOf(c.dateFrom, c.dateTo));
    PipelineFilters(notes, c, afterText.value, afterTags.value);
    filtered := Some(Lists.SortBy(afterDates.value, Precedes(c.sortBy, c.order)));
    SortedPassing(notes, c);
  }

  /** Sorting the passing notes keeps exactly them, each as often as before. */
  lemma SortedPassing(notes: seq<Note>, c: Criteria)
    ensures var unsorted := Lists.Filter(notes, Passing(c));
            var r := Lists.SortBy(unsorted, Precedes(c.sortBy, c.order));
            && multiset(r) == multiset(unsorted)
            && multiset(r) <= multiset(notes)
            && (forall n :: n in r <==> n in notes && Passes(n, c))
            && (NoActiveFilter(c) ==> multiset(r) == multiset(notes))
            && SortedFor(r, c)
  {
    var unsorted := Lists.Filter(notes, Passing(c));
    var r := Lists.SortBy(unsorted, Precedes(c.sortBy, c.order));
    SortOutcome(unsorted, c);
    assert forall n :: n in r <==> n in multiset(r);
    assert forall n :: n in unsorted <==> n in multiset(unsorted);
    if NoActiveFilter(c) {
      Lists.FilterAll(notes, Passing(c));
    }
  }

  // ---------------------------------------------------------------------------
  // delete

  /** How the `DELETE /api/notes/{id}` call ended. */
  datatype DeleteOutcome = DeleteOk | DeleteNotOk | DeleteThrew

  /** `handleDeleteNote`: the notes list afterwards. Nothing is sent without confirmation. */
  function HandleDeleteNote(notes: seq<Note>, noteId: string, confirmed: bool, outcome: DeleteOutcome): (r: seq<Note>)
    ensures !(confirmed && outcome == DeleteOk) ==> r == notes
    ensures confirmed && outcome == DeleteOk ==>
              (forall n :: n in r <==> n in notes && n.id != noteId) && multiset(r) <= multiset(notes)
  {
    if confirmed && outcome == DeleteOk then Lists.Filter(notes, (n: Note) => n.id != noteId) else notes
  }

  /** A delete is idempotent: repeating it leaves the list the first one produced. */
  lemma {:induction false} DeleteIdempotent(notes: seq<Note>, noteId: string)
    ensures var r := HandleDeleteNote(notes, noteId, true, DeleteOk);
            HandleDeleteNote(r, noteId, true, DeleteOk) == r
  {
    var r := HandleDeleteNote(notes, noteId, true, DeleteOk);
    Lists.FilterAll(r, (n: Note) => n.id != noteId);
  }
}
