/** The cross references of `nvti.c`: a comma separated printer and the parser that reads its output back. */
module NvtRefs {
  import opened Wrappers
  import opened Text

  datatype Ref = Ref(kind: string, id: string, text: Option<string>)

  datatype Typed = Typed(kind: string, id: string)

  function Pairs(refs: seq<Ref>): seq<Typed> {
    if |refs| == 0 then []
    else Pairs(refs[..|refs| - 1]) + [Typed(refs[|refs| - 1].kind, refs[|refs| - 1].id)]
  }

  // ----- printing

  /** Whether `nvti_refs` prints a reference of this kind. */
  predicate Selected(kind: string, only: Option<string>, excluded: seq<string>) {
    && (only.Some? ==> SameIgnoringCase(kind, only.value))
    && !exists e | e in excluded :: SameIgnoringCase(Trim(e), kind)
  }

  function Shown(ref: Ref, useTypes: bool): string {
    if useTypes then ref.kind + ":" + ref.id else ref.id
  }

  /** The printed items, in the order of the references. */
  function Items(refs: seq<Ref>, only: Option<string>, excluded: seq<string>, useTypes: bool): seq<string> {
    if |refs| == 0 then []
    else
      var ref := refs[|refs| - 1];
      var init := Items(refs[..|refs| - 1], only, excluded, useTypes);
      if Selected(ref.kind, only, excluded) then init + [Shown(ref, useTypes)] else init
  }

  /** The null pointer when there is nothing to print. */
  function Printed(items: seq<string>): Option<string> {
    if |items| == 0 then None else Some(Join(items, ", "))
  }

  // ----- parsing

  /** `g_strsplit (id, ":", 2)` when it gives two parts. */
  function ParseTyped(item: string): Option<Typed> {
    var i := CharIndex(item, ':');
    if i == |item| then None else Some(Typed(item[..i], item[i + 1..]))
  }

  function Opt<T>(o: Option<T>): seq<T> {
    if o.Some? then [o.value] else []
  }

  function ParsePieces(pieces: seq<string>): seq<Typed> {
    if |pieces| == 0 then []
    else ParsePieces(pieces[..|pieces| - 1]) + Opt(ParseTyped(Trim(pieces[|pieces| - 1])))
  }

  /** The references in a typed list: one for every non-blank piece that holds a colon. */
  function Parse(text: string): seq<Typed> {
    ParsePieces(GSplit(text, ','))
  }

  // ----- the round trip

  /** What the text format can carry: the separators stay out, and the outer ends are not white space. */
  predicate Clean(t: Typed) {
    && Free(t.kind, ':') && Free(t.kind, ',') && Free(t.id, ',')
    && (t.kind != "" ==> !IsGSpace(t.kind[0]))
    && (t.id != "" ==> !IsGSpace(t.id[|t.id| - 1]))
  }

  lemma ParsedIsClean(piece: string)
    requires Free(piece, ',')
    ensures ParseTyped(Trim(piece)).Some? ==> Clean(ParseTyped(Trim(piece)).value)
  {
    hide Trim, ParseTyped, Clean, Trimmed;
    TrimIsTrimmed(piece);
    forall i | 0 <= i < |Trim(piece)| ensures Trim(piece)[i] != ',' {
      assert Trim(piece)[i] in piece;
    }
    TypedIsClean(Trim(piece));
  }

  lemma TypedIsClean(item: string)
    requires Trimmed(item) && Free(item, ',')
    ensures ParseTyped(item).Some? ==> Clean(ParseTyped(item).value)
  {
  }

  lemma {:induction false} AllParsedClean(pieces: seq<string>)
    requires forall p | p in pieces :: Free(p, ',')
    ensures forall t | t in ParsePieces(pieces) :: Clean(t)
  {
    if |pieces| > 0 {
      var init, last := pieces[..|pieces| - 1], pieces[|pieces| - 1];
      assert last in pieces;
      AllParsedClean(init);
      ParsedIsClean(last);
    }
  }

  lemma ParseShown(t: Typed)
    requires Clean(t)
    ensures var item := t.kind + ":" + t.id;
      && Free(item, ',') && Free(" " + item, ',')
      && ParseTyped(Trim(item)) == Some(t)
      && ParseTyped(Trim(" " + item)) == Some(t)
  {
    var item := t.kind + ":" + t.id;
    ShownTrimmed(t);
    TrimOfTrimmed(item);
    hide *;
    ParseColon(t.kind, t.id);
  }

  lemma ShownTrimmed(t: Typed)
    requires Clean(t)
    ensures var item := t.kind + ":" + t.id;
      Trimmed(item) && Free(item, ',') && Free(" " + item, ',') && Free(t.kind, ':')
  {
  }

  lemma ParseColon(kind: string, id: string)
    requires Free(kind, ':')
    ensures ParseTyped(kind + ":" + id) == Some(Typed(kind, id))
  {
    CharIndexAt(kind, ':', id);
    assert (kind + ":" + id)[..|kind|] == kind && (kind + ":" + id)[|kind| + 1..] == id;
  }

  function ShowAll(ts: seq<Typed>): seq<string> {
    if |ts| == 0 then [] else ShowAll(ts[..|ts| - 1]) + [ShowOne(ts[|ts| - 1])]
  }

  /** The pieces between the commas of a printed list: all but the first keep the space behind the comma. */
  function Spaced(items: seq<string>): seq<string> {
    if |items| == 0 then []
    else if |items| == 1 then items
    else Spaced(items[..|items| - 1]) + [" " + items[|items| - 1]]
  }

  lemma SpacedShort(items: seq<string>)
    ensures |items| <= 1 ==> Spaced(items) == items && Join(items, ",") == Join(items, ", ")
  {
  }

  lemma {:induction false} JoinSpaced(items: seq<string>)
    ensures |Spaced(items)| == |items|
    ensures Join(Spaced(items), ",") == Join(items, ", ")
  {
    hide *;
    SpacedShort(items);
    if |items| <= 1 {
      return;
    }
    var init, last := items[..|items| - 1], items[|items| - 1];
    assert items == init + [last];
    JoinSpaced(init);
    SpacedSnoc(init, last);
    JoinSnoc(Spaced(init), " " + last, ",");
    JoinSnoc(init, last, ", ");
    assert Join(init, ", ") + "," + (" " + last) == Join(init, ", ") + ", " + last;
  }

  function ShowOne(t: Typed): string {
    t.kind + ":" + t.id
  }

  lemma ShowAllSnoc(init: seq<Typed>, last: Typed)
    ensures |ShowAll(init)| == |init|
    ensures ShowAll(init + [last]) == ShowAll(init) + [ShowOne(last)]
  {
  }

  lemma SpacedSnoc(init: seq<string>, last: string)
    ensures Spaced(init + [last]) == Spaced(init) + [if |init| == 0 then last else " " + last]
  {
  }

  lemma ParsePiecesSnoc(init: seq<string>, last: string)
    ensures ParsePieces(init + [last]) == ParsePieces(init) + Opt(ParseTyped(Trim(last)))
  {
  }

  lemma {:induction false} SpacedPieces(ts: seq<Typed>)
    requires forall t | t in ts :: Clean(t)
    ensures |ShowAll(ts)| == |ts|
    ensures forall p | p in Spaced(ShowAll(ts)) :: Free(p, ',')
    ensures ParsePieces(Spaced(ShowAll(ts))) == ts
  {
    if |ts| == 0 {
      return;
    }
    hide ShowAll, Spaced, ParsePieces, ParseTyped, Trim, Free, Clean;
    var init, last := ts[..|ts| - 1], ts[|ts| - 1];
    assert ts == init + [last] && last in ts;
    SpacedPieces(init);
    ShowAllSnoc(init, last);
    SpacedSnoc(ShowAll(init), ShowOne(last));
    ParsePiecesSnoc(Spaced(ShowAll(init)), if |init| == 0 then ShowOne(last) else " " + ShowOne(last));
    ParseShown(last);
  }

  /** Reading a printed typed list gives back the same kinds and ids in the same order exactly when the format
      can carry every one of them. */
  lemma RoundTripIff(ts: seq<Typed>)
    requires |ts| > 0
    ensures Parse(Join(ShowAll(ts), ", ")) == ts <==> forall t | t in ts :: Clean(t)
  {
    var text := Join(ShowAll(ts), ", ");
    if forall t | t in ts :: Clean(t) {
      SpacedPieces(ts);
      JoinSpaced(ShowAll(ts));
      SplitJoin(Spaced(ShowAll(ts)), ',');
      assert text != "" by { JoinNotEmpty(ts); }
    }
    SplitPieces(text, ',');
    AllParsedClean(GSplit(text, ','));
  }

  lemma {:induction false} JoinNotEmpty(ts: seq<Typed>)
    requires |ts| > 0
    ensures Join(ShowAll(ts), ", ") != ""
  {
  }

  // ----- the NVT object

  /** The references that `nvti_add_refs` makes of the pieces of a list. */
  function Added(pieces: seq<string>, kind: Option<string>, text: Option<string>): seq<Ref> {
    if |pieces| == 0 then []
    else Added(pieces[..|pieces| - 1], kind, text) + AddedOne(Trim(pieces[|pieces| - 1]), kind, text)
  }

  function AddedOne(id: string, kind: Option<string>, text: Option<string>): seq<Ref> {
    if id == "" then []
    else if kind.Some? then [Ref(kind.value, id, text)]
    else match ParseTyped(id)
      case Some(t) => [Ref(t.kind, t.id, Some(""))]
      case None => []
  }

  lemma AddedSnoc(init: seq<string>, last: string, kind: Option<string>, text: Option<string>)
    ensures Added(init + [last], kind, text) == Added(init, kind, text) + AddedOne(Trim(last), kind, text)
  {
  }

  lemma {:induction false} PairsConcat(a: seq<Ref>, b: seq<Ref>)
    ensures Pairs(a + b) == Pairs(a) + Pairs(b)
  {
    if |b| == 0 {
      assert a + b == a;
    } else {
      assert (a + b)[..|a + b| - 1] == a + b[..|b| - 1];
      PairsConcat(a, b[..|b| - 1]);
    }
  }

  /** Without a kind of their own, the added references are those of `Parse`. */
  lemma {:induction false} AddedIsParsed(pieces: seq<string>, text: Option<string>)
    ensures Pairs(Added(pieces, None, text)) == ParsePieces(pieces)
  {
    if |pieces| > 0 {
      var init, last := pieces[..|pieces| - 1], pieces[|pieces| - 1];
      AddedIsParsed(init, text);
      PairsConcat(Added(init, None, text), AddedOne(Trim(last), None, text));
      assert Pairs(AddedOne(Trim(last), None, text)) == Opt(ParseTyped(Trim(last)));
    }
  }

  // ----- references of one kind

  /** The pieces of a list that are not blank, without the white space around them. */
  function NonBlank(pieces: seq<string>): seq<string> {
    if |pieces| == 0 then []
    else
      var last := Trim(pieces[|pieces| - 1]);
      NonBlank(pieces[..|pieces| - 1]) + if last == "" then [] else [last]
  }

  lemma NonBlankSnoc(init: seq<string>, last: string)
    ensures NonBlank(init + [last]) == NonBlank(init) + if Trim(last) == "" then [] else [Trim(last)]
  {
  }

  /** With a kind of their own, the added references are one for each piece that is not blank, in order: the kind that was
      given, the piece as the id, and the text that was given. */
  lemma {:induction false} AddedWithKind(pieces: seq<string>, kind: string, text: Option<string>)
    ensures var added, ids := Added(pieces, Some(kind), text), NonBlank(pieces);
      && |added| == |ids|
      && forall i | 0 <= i < |ids| :: added[i].kind == kind && added[i].id == ids[i] && added[i].text == text
  {
    hide Trim;
    if |pieces| > 0 {
      AddedWithKind(pieces[..|pieces| - 1], kind, text);
    }
  }

  /** Without a kind, they are one for each piece that names its kind in front of a colon, in order and without a text. */
  lemma {:induction false} AddedWithoutKind(pieces: seq<string>, text: Option<string>)
    ensures var added, parsed := Added(pieces, None, text), ParsePieces(pieces);
      && |added| == |parsed|
      && forall i | 0 <= i < |parsed| ::
           added[i].kind == parsed[i].kind && added[i].id == parsed[i].id && added[i].text == Some("")
  {
    hide Trim;
    if |pieces| > 0 {
      AddedWithoutKind(pieces[..|pieces| - 1], text);
      assert ParseTyped("") == None;
    }
  }

  lemma {:induction false} ItemsOfKind(refs: seq<Ref>, kind: string)
    requires forall r | r in refs :: r.kind == kind
    ensures var items := Items(refs, Some(kind), [], false);
      |items| == |refs| && forall i | 0 <= i < |refs| :: items[i] == refs[i].id
  {
    if |refs| > 0 {
      ItemsOfKind(refs[..|refs| - 1], kind);
      assert refs[|refs| - 1] in refs;
    }
  }

  lemma {:induction false} NonBlankPieces(pieces: seq<string>)
    requires forall p | p in pieces :: Free(p, ',')
    ensures forall p | p in NonBlank(pieces) :: p != "" && Trimmed(p) && Free(p, ',')
  {
    if |pieces| > 0 {
      var last := pieces[|pieces| - 1];
      NonBlankPieces(pieces[..|pieces| - 1]);
      assert last in pieces;
      TrimIsTrimmed(last);
      hide Trim;
      assert forall i | 0 <= i < |Trim(last)| :: Trim(last)[i] in Trim(last);
    }
  }

  lemma SpaceKept(p: string)
    requires p != "" && Trimmed(p) && Free(p, ',')
    ensures Trim(p) == p && Trim(" " + p) == p && Free(" " + p, ',')
  {
    TrimOfTrimmed(p);
  }

  lemma {:induction false} SpacedNonBlank(items: seq<string>)
    requires forall p | p in items :: p != "" && Trimmed(p) && Free(p, ',')
    ensures NonBlank(Spaced(items)) == items
    ensures forall p | p in Spaced(items) :: Free(p, ',')
  {
    if |items| == 0 {
      return;
    }
    hide Spaced, NonBlank, Trim, Free, Trimmed;
    var init, last := items[..|items| - 1], items[|items| - 1];
    assert items == init + [last] && last in items;
    assert forall p | p in init :: p in items;
    SpacedNonBlank(init);
    SpacedSnoc(init, last);
    NonBlankSnoc(Spaced(init), if |init| == 0 then last else " " + last);
    SpaceKept(last);
  }

  lemma JoinedNotEmpty(items: seq<string>)
    requires |items| > 0 && items[0] != ""
    ensures Join(items, ", ") != ""
  {
  }

  /** Printing what was added with a kind, selected by that kind and without types, gives the pieces joined by a comma and a
      space, or the null pointer if all are blank; reading that with the kind again adds the same references. */
  lemma KindRoundTrip(list: string, kind: string, text: Option<string>)
    ensures var added, ids := Added(GSplit(list, ','), Some(kind), text), NonBlank(GSplit(list, ','));
      var printed := Printed(Items(added, Some(kind), [], false));
      && printed == (if ids == [] then None else Some(Join(ids, ", ")))
      && (printed.Some? ==> Added(GSplit(printed.value, ','), Some(kind), text) == added)
  {
    var pieces := GSplit(list, ',');
    var added, ids := Added(pieces, Some(kind), text), NonBlank(pieces);
    AddedWithKind(pieces, kind, text);
    SplitPieces(list, ',');
    hide Added, NonBlank, Items, Join, Spaced, Trimmed, Trim;
    ItemsOfKind(added, kind);
    assert Items(added, Some(kind), [], false) == ids;
    if ids != [] {
      NonBlankPieces(pieces);
      SpacedNonBlank(ids);
      JoinSpaced(ids);
      SplitJoin(Spaced(ids), ',');
      assert ids[0] in ids;
      JoinedNotEmpty(ids);
      AddedWithKind(GSplit(Join(ids, ", "), ','), kind, text);
    }
  }

  /** Selecting a kind and excluding it, with white space around it or not, split the references: what is printed with the
      one is left out with the other. */
  lemma {:induction false} SelectOrExclude(refs: seq<Ref>, word: string, useTypes: bool)
    ensures multiset(Items(refs, Some(Trim(word)), [], useTypes)) + multiset(Items(refs, None, [word], useTypes))
         == multiset(Items(refs, None, [], useTypes))
    ensures |Items(refs, None, [], useTypes)| == |refs|
  {
    hide Trim, Selected;
    if |refs| > 0 {
      SelectOrExclude(refs[..|refs| - 1], word, useTypes);
      KindSelected(refs[|refs| - 1].kind, word);
    }
  }

  lemma KindSelected(k: string, word: string)
    ensures Selected(k, Some(Trim(word)), []) <==> !Selected(k, None, [word])
    ensures Selected(k, None, [])
  {
    hide SameIgnoringCase, Trim;
    if SameIgnoringCase(k, Trim(word)) {
      SameBothWays(k, Trim(word));
      assert word in [word];
    } else if SameIgnoringCase(Trim(word), k) {
      SameBothWays(Trim(word), k);
    }
  }

  lemma SameBothWays(a: string, b: string)
    requires SameIgnoringCase(a, b)
    ensures SameIgnoringCase(b, a)
  {
  }

  class Nvti {
    var refs: seq<Ref>

    constructor ()
      ensures refs == []
    {
      refs := [];
    }

    /** What `nvti_add_refs` does with one stripped piece. */
    method AddItem(id: string, kind: Option<string>, text: Option<string>)
      modifies this
      ensures refs == old(refs) + AddedOne(id, kind, text)
    {
      hide ParseTyped;
      if id == "" {
        return;
      }
      if kind.Some? {
        refs := refs + [Ref(kind.value, id, text)];
      } else {
        var t := ParseTyped(id);
        if t.Some? {
          refs := refs + [Ref(t.value.kind, t.value.id, Some(""))];
        }
      }
    }

    /** `nvti_add_refs`; a null list answers 2. */
    method AddRefs(kind: Option<string>, refIds: Option<string>, text: Option<string>) returns (ret: int)
      modifies this
      ensures refIds.None? ==> ret == 2 && refs == old(refs)
      ensures refIds.Some? ==> ret == 0 && refs == old(refs) + Added(GSplit(refIds.value, ','), kind, text)
    {
      if refIds.None? {
        return 2;
      }
      AddPieces(GSplit(refIds.value, ','), kind, text);
      ret := 0;
    }

    method AddPieces(split: seq<string>, kind: Option<string>, text: Option<string>)
      modifies this
      ensures refs == old(refs) + Added(split, kind, text)
    {
      var item := 0;
      ghost var added: seq<Ref> := [];
      assert split[..0] == [];
      while item < |split|
        invariant 0 <= item <= |split|
        invariant added == Added(split[..item], kind, text)
        invariant refs == old(refs) + added
      {
        PiecesStep(split, item, kind, text);
        hide *;
        AddItem(Trim(split[item]), kind, text);
        added := added + AddedOne(Trim(split[item]), kind, text);
        item := item + 1;
      }
      assert split[..item] == split;
    }

    lemma PiecesStep(split: seq<string>, i: nat, kind: Option<string>, text: Option<string>)
      requires i < |split|
      ensures Added(split[..i + 1], kind, text) == Added(split[..i], kind, text) + AddedOne(Trim(split[i]), kind, text)
    {
      assert split[..i + 1] == split[..i] + [split[i]];
      AddedSnoc(split[..i], split[i], kind, text);
    }

    /** The search of `nvti_refs` through the excluded kinds. */
    method IsExcluded(split: seq<string>, kind: string) returns (exclude: bool)
      ensures exclude <==> exists e | e in split :: SameIgnoringCase(Trim(e), kind)
    {
      exclude := false;
      var k := 0;
      while k < |split|
        invariant 0 <= k <= |split|
        invariant forall j | 0 <= j < k :: !SameIgnoringCase(Trim(split[j]), kind)
      {
        if SameIgnoringCase(Trim(split[k]), kind) {
          return true;
        }
        k := k + 1;
      }
    }

    /** `nvti_refs`. */
    method Refs(kind: Option<string>, excludeKinds: Option<string>, useTypes: bool) returns (out: Option<string>)
      ensures out == Printed(Items(refs, kind, GSplit(excludeKinds.GetOr(""), ','), useTypes))
    {
      hide Items, Printed, GSplit, SameIgnoringCase, Trim;
      var split := GSplit(excludeKinds.GetOr(""), ',');
      out := None;
      NothingPrinted(kind, split, useTypes);
      var i := 0;
      assert refs[..0] == [];
      while i < |refs|
        invariant 0 <= i <= |refs|
        invariant out == Printed(Items(refs[..i], kind, split, useTypes))
      {
        var ref := refs[i];
        ItemsStep(refs, i, kind, split, useTypes);
        i := i + 1;
        var exclude := IsExcluded(split, ref.kind);
        if (kind.Some? && !SameIgnoringCase(ref.kind, kind.value)) || exclude {
          continue;
        }
        out := Some(if out.Some? then out.value + ", " + Shown(ref, useTypes) else Shown(ref, useTypes));
      }
      assert refs[..i] == refs;
    }
  }

  lemma NothingPrinted(kind: Option<string>, split: seq<string>, useTypes: bool)
    ensures Printed(Items([], kind, split, useTypes)) == None
  {
  }

  lemma ItemsStep(refs: seq<Ref>, i: nat, kind: Option<string>, split: seq<string>, useTypes: bool)
    requires i < |refs|
    ensures var before := Printed(Items(refs[..i], kind, split, useTypes));
      var after := Printed(Items(refs[..i + 1], kind, split, useTypes));
      var x := Shown(refs[i], useTypes);
      after == if Selected(refs[i].kind, kind, split) then Some(if before.Some? then before.value + ", " + x else x)
               else before
  {
    assert refs[..i + 1][..i] == refs[..i];
    PrintedSnoc(Items(refs[..i], kind, split, useTypes), Shown(refs[i], useTypes));
  }

  lemma PrintedSnoc(items: seq<string>, x: string)
    ensures Printed(items + [x]) ==
      Some(match Printed(items) case Some(s) => s + ", " + x case None => x)
    ensures Printed(items + []) == Printed(items)
  {
    JoinSnoc(items, x, ", ");
    assert items + [] == items;
  }

  function SelectedPairs(refs: seq<Ref>, only: Option<string>, excluded: seq<string>): seq<Typed> {
    if |refs| == 0 then []
    else
      var ref := refs[|refs| - 1];
      var init := SelectedPairs(refs[..|refs| - 1], only, excluded);
      if Selected(ref.kind, only, excluded) then init + [Typed(ref.kind, ref.id)] else init
  }

  lemma {:induction false} ItemsAreShown(refs: seq<Ref>, only: Option<string>, excluded: seq<string>)
    ensures Items(refs, only, excluded, true) == ShowAll(SelectedPairs(refs, only, excluded))
  {
    if |refs| > 0 {
      var ref := refs[|refs| - 1];
      ItemsAreShown(refs[..|refs| - 1], only, excluded);
      ShowAllSnoc(SelectedPairs(refs[..|refs| - 1], only, excluded), Typed(ref.kind, ref.id));
    }
  }

  /** `nvti_add_refs` on the typed output of `nvti_refs`, whatever kinds were selected for printing: it adds
      exactly the printed kinds and ids, in their order, if and only if each of them is clean. When nothing is
      selected the printer answers null and the parser adds nothing. */
  lemma PrintThenAdd(refs: seq<Ref>, only: Option<string>, excluded: seq<string>, text: Option<string>)
    ensures var sel := SelectedPairs(refs, only, excluded);
      var printed := Printed(Items(refs, only, excluded, true));
      && (printed.None? <==> sel == [])
      && (printed.Some? ==>
            (Pairs(Added(GSplit(printed.value, ','), None, text)) == sel <==> forall t | t in sel :: Clean(t)))
  {
    var sel := SelectedPairs(refs, only, excluded);
    ItemsAreShown(refs, only, excluded);
    ShowAllLength(sel);
    if |sel| > 0 {
      RoundTripIff(sel);
      AddedIsParsed(GSplit(Join(ShowAll(sel), ", "), ','), text);
    }
  }

  lemma ShowAllLength(ts: seq<Typed>)
    ensures |ShowAll(ts)| == |ts|
  {
  }
}
