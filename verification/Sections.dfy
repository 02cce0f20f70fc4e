/**
 Editing a list that consists of named sections of named entries. The syntax of the elements is a parameter:
 a scheme says which elements are section headers, what a header and an entry are called, and which elements
 are blank.
 */
module Sections {
  import opened Text
  import opened Blocks

  datatype Scheme<!T> = Scheme(header: T -> bool, name: T -> Name, key: T -> Name, blank: T -> bool, gap: T) {
    /** The element put before a new section is an unnamed entry. */
    ghost predicate Sane() {
      !header(gap) && key(gap) == NO_NAME
    }

    predicate IsKeyed(x: T) {
      key(x) != NO_NAME
    }
  }

  /** No entry deletes the key; no key deletes the section. */
  datatype Edit<T> =
    | Set(section: Name, key: Name, header: T, entry: T)
    | DropKey(section: Name, key: Name)
    | DropSection(section: Name)
  {
    /** The elements to be written are a header of the section and an entry. */
    ghost predicate Fits(sc: Scheme<T>) {
      Set? ==> sc.header(header) && sc.name(header) == section && !sc.header(entry)
    }

    /** Besides, the entry reads back as the key it is written for. */
    ghost predicate Clean(sc: Scheme<T>) {
      Fits(sc) && (Set? ==> sc.key(entry) == key)
    }

    predicate Touches(section': Name, key': Name) {
      section == section' && (DropSection? || key == key')
    }
  }

  predicate Opens<T>(sc: Scheme<T>, section: Name, x: T) {
    sc.header(x) && sc.name(x) == section
  }

  predicate Assigns<T>(sc: Scheme<T>, key: Name, x: T) {
    sc.key(x) == key
  }

  function Opener<T>(sc: Scheme<T>, section: Name): T -> bool {
    x => Opens(sc, section, x)
  }

  function Assigner<T>(sc: Scheme<T>, key: Name): T -> bool {
    x => Assigns(sc, key, x)
  }

  /** The elements of the first section of this name, header excluded. */
  function Body<T>(sc: Scheme<T>, list: seq<T>, section: Name): Option<seq<T>> {
    Block(Opener(sc, section), sc.header, list)
  }

  /** The entry a reader finds. */
  function Lookup<T>(sc: Scheme<T>, list: seq<T>, section: Name, key: Name): Option<T> {
    match Body(sc, list, section)
    case None => None
    case Some(body) => Pick(Assigner(sc, key), body)
  }

  lemma {:induction false} LookupAssigns<T>(sc: Scheme<T>, list: seq<T>, section: Name, key: Name)
    requires Lookup(sc, list, section, key).Some?
    ensures sc.key(Lookup(sc, list, section, key).value) == key
  {
  }

  // ---------- editing ----------

  /** What an edit makes of the body of its section; `None` when it changes nothing. */
  function EditBody<T>(sc: Scheme<T>, body: seq<T>, edit: Edit<T>): Option<seq<T>>
    requires !edit.DropSection?
  {
    if edit.DropKey? then Cut(Assigner(sc, edit.key), body)
    else Some(Put(Assigner(sc, edit.key), sc.blank, body, edit.entry))
  }

  /** The blank element put before a new section, if any. */
  function Gap<T>(sc: Scheme<T>, list: seq<T>): seq<T> {
    if list != [] && !sc.blank(list[|list| - 1]) then [sc.gap] else []
  }

  /** The list to write back, or `None` when the edit leaves it untouched. */
  function Apply<T>(sc: Scheme<T>, list: seq<T>, edit: Edit<T>): Option<seq<T>> {
    var start := First(Opener(sc, edit.section), list);
    if start == |list| then
      if !edit.Set? then None else Some(list + Gap(sc, list) + [edit.header] + [edit.entry])
    else
      var end := start + 1 + First(sc.header, list[start + 1..]);
      if edit.DropSection? then Some(list[..start] + list[end..])
      else
        match EditBody(sc, list[start + 1..end], edit)
        case None => None
        case Some(body) => Some(list[..start + 1] + body + list[end..])
  }

  /** The list after the edit, whether or not it was written back. */
  function After<T>(sc: Scheme<T>, list: seq<T>, edit: Edit<T>): seq<T> {
    match Apply(sc, list, edit)
    case None => list
    case Some(changed) => changed
  }

  /** The section was found: the list is `a + [h] + b + c` around it, and only `[h] + b` may change. */
  lemma {:induction false} ActsInside<T>(sc: Scheme<T>, list: seq<T>, edit: Edit<T>)
      returns (a: seq<T>, h: T, b: seq<T>, c: seq<T>)
    requires First(Opener(sc, edit.section), list) < |list|
    ensures list == a + [h] + b + c
    ensures Around(Opener(sc, edit.section), sc.header, a, h, b, c)
    ensures Body(sc, list, edit.section) == Some(b)
    ensures edit.DropSection? ==> Apply(sc, list, edit) == Some(a + c)
    ensures !edit.DropSection? ==>
              Apply(sc, list, edit)
              == match EditBody(sc, b, edit)
                 case None => None
                 case Some(body) => Some(a + [h] + body + c)
  {
    a, h, b, c := Locate(Opener(sc, edit.section), sc.header, list);
    BlockAround(Opener(sc, edit.section), sc.header, a, h, b, c);
    assert list[..|a| + 1] == a + [h];
    assert list[|a| + 1..|a| + 1 + |b|] == b;
    assert list[|a| + 1 + |b|..] == c;
    assert list[..|a|] == a;
  }

  // ---------- one body ----------

  lemma {:induction false} BodyStaysPlain<T>(sc: Scheme<T>, b: seq<T>, edit: Edit<T>)
    requires edit.Fits(sc) && !edit.DropSection? && NoneOf(sc.header, b)
    ensures EditBody(sc, b, edit).Some? ==> NoneOf(sc.header, EditBody(sc, b, edit).value)
  {
    if edit.Set? {
      PutNone(Assigner(sc, edit.key), sc.blank, b, edit.entry, sc.header);
    }
  }

  lemma {:induction false} BodyFrame<T>(sc: Scheme<T>, b: seq<T>, edit: Edit<T>, key: Name)
    requires edit.Clean(sc) && !edit.DropSection? && edit.key != key
    ensures EditBody(sc, b, edit).Some? ==>
              Pick(Assigner(sc, key), EditBody(sc, b, edit).value) == Pick(Assigner(sc, key), b)
  {
    if edit.Set? {
      PutFrame(Assigner(sc, edit.key), sc.blank, b, edit.entry, Assigner(sc, key));
    } else {
      CutFrame(Assigner(sc, edit.key), b, Assigner(sc, key));
    }
  }

  // ---------- one section among the others ----------

  /** Whatever replaces the body of one section, every other section reads the same. */
  lemma {:induction false} OtherSections<T>(sc: Scheme<T>, section: Name, a: seq<T>, h: T, b: seq<T>, b': seq<T>,
                                            c: seq<T>, other: Name)
    requires Around(Opener(sc, section), sc.header, a, h, b, c)
    requires NoneOf(sc.header, b') && other != section
    ensures Body(sc, a + [h] + b + c, other) == Body(sc, a + [h] + b' + c, other)
  {
    OtherBlock(sc.header, a, h, b, c, Opener(sc, other));
    OtherBlock(sc.header, a, h, b', c, Opener(sc, other));
  }

  /** An edit inside a section changes the body of that section and of no other. */
  lemma {:induction false} Inside<T>(sc: Scheme<T>, list: seq<T>, edit: Edit<T>) returns (b: seq<T>)
    requires edit.Fits(sc) && !edit.DropSection?
    requires First(Opener(sc, edit.section), list) < |list|
    ensures Body(sc, list, edit.section) == Some(b)
    ensures NoneOf(sc.header, b)
    ensures EditBody(sc, b, edit) == None ==> Apply(sc, list, edit) == None
    ensures EditBody(sc, b, edit).Some? ==>
              && Apply(sc, list, edit).Some?
              && Body(sc, After(sc, list, edit), edit.section) == EditBody(sc, b, edit)
              && forall other :: other != edit.section ==>
                   Body(sc, After(sc, list, edit), other) == Body(sc, list, other)
  {
    var a, h, c;
    a, h, b, c := ActsInside(sc, list, edit);
    if EditBody(sc, b, edit).Some? {
      var b' := EditBody(sc, b, edit).value;
      BodyStaysPlain(sc, b, edit);
      BlockAround(Opener(sc, edit.section), sc.header, a, h, b', c);
      forall other | other != edit.section
        ensures Body(sc, a + [h] + b' + c, other) == Body(sc, list, other)
      {
        OtherSections(sc, edit.section, a, h, b, b', c, other);
      }
    }
  }

  /** A write to a missing section appends that section, and other sections gain at most the blank element. */
  lemma {:induction false} Appended<T>(sc: Scheme<T>, list: seq<T>, edit: Edit<T>)
    requires sc.Sane() && edit.Set? && edit.Fits(sc)
    requires First(Opener(sc, edit.section), list) == |list|
    ensures Apply(sc, list, edit) == Some(list + Gap(sc, list) + [edit.header] + [edit.entry])
    ensures Body(sc, list, edit.section) == None
    ensures Body(sc, After(sc, list, edit), edit.section) == Some([edit.entry])
    ensures forall other :: other != edit.section ==>
              Body(sc, After(sc, list, edit), other) == Body(sc, list + Gap(sc, list), other)
  {
    var a, h, b := list + Gap(sc, list), edit.header, [edit.entry];
    assert a + [h] + b == a + [h] + b + [];
    BlockAround(Opener(sc, edit.section), sc.header, a, h, b, []);
    forall other | other != edit.section
      ensures Body(sc, a + [h] + b + [], other) == Body(sc, a, other)
    {
      OtherBlock(sc.header, a, h, b, [], Opener(sc, other));
    }
  }

  // ---------- reading back, idempotence, minimality ----------

  /** After a write the reader finds the entry that was written. */
  lemma {:induction false} ReadBack<T>(sc: Scheme<T>, list: seq<T>, edit: Edit<T>)
    requires sc.Sane() && edit.Set? && edit.Clean(sc)
    ensures Lookup(sc, After(sc, list, edit), edit.section, edit.key) == Some(edit.entry)
  {
    if First(Opener(sc, edit.section), list) < |list| {
      var b := Inside(sc, list, edit);
      PutFound(Assigner(sc, edit.key), sc.blank, b, edit.entry);
    } else {
      Appended(sc, list, edit);
      FirstIs(Assigner(sc, edit.key), [edit.entry], 0);
    }
  }

  /** Writing the same entry again changes nothing: the list never grows. */
  lemma {:induction false} SetTwice<T>(sc: Scheme<T>, list: seq<T>, edit: Edit<T>)
    requires sc.Sane() && edit.Set? && edit.Clean(sc)
    ensures Apply(sc, After(sc, list, edit), edit) == Some(After(sc, list, edit))
  {
    var x := edit.entry;
    if First(Opener(sc, edit.section), list) < |list| {
      var b := Inside(sc, list, edit);
      PutFound(Assigner(sc, edit.key), sc.blank, b, x);
    } else {
      Appended(sc, list, edit);
      FirstIs(Assigner(sc, edit.key), [x], 0);
      assert [x][0 := x] == [x];
    }
    var a, h, b, c := ActsInside(sc, After(sc, list, edit), edit);
  }

  /** After a write its section is there. */
  lemma {:induction false} SectionThere<T>(sc: Scheme<T>, list: seq<T>, edit: Edit<T>)
    requires edit.Set? && Opens(sc, edit.section, edit.header)
    ensures First(Opener(sc, edit.section), After(sc, list, edit)) < |After(sc, list, edit)|
  {
    var opens, after := Opener(sc, edit.section), After(sc, list, edit);
    if First(opens, list) < |list| {
      var a, h, b, c := ActsInside(sc, list, edit);
      assert after[|a|] == h;
    } else {
      assert after[|after| - 2] == edit.header;
    }
  }

  /** In a section that is there, a write of a key that is not there adds one element. */
  lemma {:induction false} SetGrows<T>(sc: Scheme<T>, list: seq<T>, edit: Edit<T>)
    requires edit.Set? && First(Opener(sc, edit.section), list) < |list|
    requires forall x :: x in list ==> sc.key(x) != edit.key
    ensures |After(sc, list, edit)| == |list| + 1
  {
    var a, h, b, c := ActsInside(sc, list, edit);
    FirstNone(Assigner(sc, edit.key), b);
  }

  /**
   Any write is a minimal edit of the whole list. In a section that is there, the entry written takes the place
   of `gone` between `front` and `back`: of one entry of that key, or else of nothing, just before the blank
   elements that close the section. A section that is not there is appended with that one entry, after an
   optional blank element. All other elements keep their place.
   */
  lemma {:induction false} SetIsMinimal<T>(sc: Scheme<T>, list: seq<T>, edit: Edit<T>)
      returns (front: seq<T>, gone: seq<T>, back: seq<T>)
    requires edit.Set?
    ensures list == front + gone + back
    ensures match Body(sc, list, edit.section)
            case None =>
              && gone == back == []
              && After(sc, list, edit) == list + Gap(sc, list) + [edit.header] + [edit.entry]
            case Some(body) =>
              && After(sc, list, edit) == front + [edit.entry] + back
              && exists p, q :: EndsInside(sc, p, q, front, back)
                   && PutAt(Assigner(sc, edit.key), sc.blank, body, p, gone, q)
  {
    if First(Opener(sc, edit.section), list) < |list| {
      var a, h, b, c := ActsInside(sc, list, edit);
      var p, q;
      p, gone, q := PutSplit(Assigner(sc, edit.key), sc.blank, b, edit.entry);
      front, back := a + [h] + p, q + c;
      Regroup(a, h, p, [edit.entry], q, c);
      Regroup(a, h, p, gone, q, c);
      assert EndsInside(sc, p, q, front, back);
    } else {
      front, gone, back := list, [], [];
    }
  }

  /** `front` ends with the part `p` of a section body, and `back` starts with the rest `q` of it. */
  ghost predicate EndsInside<T>(sc: Scheme<T>, p: seq<T>, q: seq<T>, front: seq<T>, back: seq<T>) {
    && |p| < |front| && front[|front| - |p|..] == p && sc.header(front[|front| - |p| - 1])
    && q <= back && (|q| < |back| ==> sc.header(back[|q|]))
  }

  // ---------- non-interference ----------

  /** The section runs to the end of the list. */
  predicate IsLast<T>(sc: Scheme<T>, list: seq<T>, section: Name) {
    var start := First(Opener(sc, section), list);
    start < |list| && start + 1 + First(sc.header, list[start + 1..]) == |list|
  }

  /** Appending a blank element extends at most the last section, and only by that element. */
  lemma {:induction false} AppendBlank<T>(sc: Scheme<T>, list: seq<T>, section: Name)
    requires sc.Sane()
    ensures Body(sc, list + [sc.gap], section)
            == match Body(sc, list, section)
               case None => None
               case Some(b) => Some(if IsLast(sc, list, section) then b + [sc.gap] else b)
  {
    var opens := Opener(sc, section);
    FirstConcat(opens, list, [sc.gap]);
    if First(opens, list) < |list| {
      var a, h, b, c := Locate(opens, sc.header, list);
      BlockAround(opens, sc.header, a, h, b, c);
      if c != [] {
        assert list + [sc.gap] == a + [h] + b + (c + [sc.gap]);
        BlockAround(opens, sc.header, a, h, b, c + [sc.gap]);
      } else {
        assert list + [sc.gap] == a + [h] + (b + [sc.gap]) + [];
        BlockAround(opens, sc.header, a, h, b + [sc.gap], []);
      }
    }
  }

  lemma {:induction false} BlankSeen<T>(sc: Scheme<T>, b: seq<T>, key: Name)
    requires sc.Sane()
    ensures Pick(Assigner(sc, key), b + [sc.gap])
            == if key == NO_NAME && Pick(Assigner(sc, key), b) == None then Some(sc.gap) else Pick(Assigner(sc, key), b)
  {
    FirstConcat(Assigner(sc, key), b, [sc.gap]);
    if key != NO_NAME {
      PickSkips(Assigner(sc, key), b, sc.gap, []);
      assert b + [sc.gap] + [] == b + [sc.gap] && b + [] == b;
    }
  }

  /**
   The one way a write shows through at another name: it creates a section after a non-blank element, and the
   blank element put in front of it becomes the first entry without a key in the section that was last.
   */
  predicate LeaksBlank<T>(sc: Scheme<T>, list: seq<T>, edit: Edit<T>, section: Name, key: Name) {
    && edit.Set? && key == NO_NAME && Gap(sc, list) != []
    && Body(sc, list, edit.section).None?
    && IsLast(sc, list, section) && Lookup(sc, list, section, key).None?
  }

  /** A list of one section and one entry, in which the blank element would leak. */
  lemma {:induction false} LeakExample<T>(sc: Scheme<T>, h: T, x: T, section: Name, edit: Edit<T>)
    requires Opens(sc, section, h) && !sc.header(x) && sc.IsKeyed(x) && !sc.blank(x)
    requires edit.Set? && edit.section != section
    ensures LeaksBlank(sc, [h, x], edit, section, NO_NAME)
  {
    BlockIs(Opener(sc, section), sc.header, [h, x], 0, 2);
    assert [h, x][1..2] == [x];
    FirstNone(Assigner(sc, NO_NAME), [x]);
    FirstNone(Opener(sc, edit.section), [h, x]);
  }

  /** A write shows through at no other name, whatever duplicates the list holds, except for that one leak. */
  lemma {:induction false} SetFrame<T>(sc: Scheme<T>, list: seq<T>, edit: Edit<T>, section: Name, key: Name)
    requires sc.Sane() && edit.Set? && edit.Clean(sc) && !edit.Touches(section, key)
    ensures Lookup(sc, After(sc, list, edit), section, key) == Lookup(sc, list, section, key)
            <==> !LeaksBlank(sc, list, edit, section, key)
  {
    if First(Opener(sc, edit.section), list) < |list| {
      var b := Inside(sc, list, edit);
      if section == edit.section {
        BodyFrame(sc, b, edit, key);
      }
    } else {
      Appended(sc, list, edit);
      if section != edit.section {
        AppendBlank(sc, list, section);
        assert list + [] == list;
        if Body(sc, list, section).Some? {
          BlankSeen(sc, Body(sc, list, section).value, key);
        }
      } else {
        FirstNone(Assigner(sc, key), [edit.entry]);
      }
    }
  }

  /** The key the edit is for is the entry's own, or no element has it. */
  ghost predicate Steers<T>(sc: Scheme<T>, list: seq<T>, edit: Edit<T>) {
    edit.Set? ==> sc.key(edit.entry) == edit.key || forall x :: x in list ==> sc.key(x) != edit.key
  }

  /** Where in the body of its section an entry is put. */
  function Place<T>(sc: Scheme<T>, body: seq<T>, edit: Edit<T>): nat
    requires edit.Set?
  {
    var j := First(Assigner(sc, edit.key), body);
    if j < |body| then j else StemLength(sc.blank, body)
  }

  /** The entry is read under this name, and nothing before its place is. */
  predicate Takes<T>(sc: Scheme<T>, list: seq<T>, edit: Edit<T>, section: Name, key: Name) {
    && edit.Set? && !sc.header(edit.entry) && edit.section == section && sc.key(edit.entry) == key
    && match Body(sc, list, section)
       case None => true
       case Some(body) => First(Assigner(sc, key), body) >= Place(sc, body, edit)
  }

  /** What a write of an entry makes of every name, the one it is for and the empty ones included. */
  lemma {:induction false} SetTakes<T>(sc: Scheme<T>, list: seq<T>, edit: Edit<T>, section: Name, key: Name)
    requires sc.Sane() && edit.Set? && edit.Fits(sc) && Steers(sc, list, edit)
    ensures Lookup(sc, After(sc, list, edit), section, key)
            == if Takes(sc, list, edit, section, key) then Some(edit.entry)
               else if LeaksBlank(sc, list, edit, section, key) then Some(sc.gap)
               else Lookup(sc, list, section, key)
  {
    if First(Opener(sc, edit.section), list) < |list| {
      var b := Inside(sc, list, edit);
      if section == edit.section {
        BodyElements(sc, list, section, b);
        BodyTakes(sc, b, edit, key);
      }
    } else {
      Appended(sc, list, edit);
      if section == edit.section {
        FirstNone(Assigner(sc, key), [edit.entry]);
      } else {
        AppendBlank(sc, list, section);
        assert list + [] == list;
        if Body(sc, list, section).Some? {
          BlankSeen(sc, Body(sc, list, section).value, key);
        }
      }
    }
  }

  lemma {:induction false} BodyTakes<T>(sc: Scheme<T>, b: seq<T>, edit: Edit<T>, key: Name)
    requires edit.Set? && (sc.key(edit.entry) == edit.key || forall x :: x in b ==> sc.key(x) != edit.key)
    ensures Pick(Assigner(sc, key), EditBody(sc, b, edit).value)
            == if sc.key(edit.entry) == key && First(Assigner(sc, key), b) >= Place(sc, b, edit) then Some(edit.entry)
               else Pick(Assigner(sc, key), b)
  {
    FirstNone(Assigner(sc, edit.key), b);
    if First(Assigner(sc, edit.key), b) == |b| {
      PutReads(Assigner(sc, edit.key), sc.blank, b, edit.entry, Assigner(sc, key));
    } else if key == edit.key {
      PutFound(Assigner(sc, edit.key), sc.blank, b, edit.entry);
    } else {
      PutFrame(Assigner(sc, edit.key), sc.blank, b, edit.entry, Assigner(sc, key));
    }
  }

  /** The entry is itself a header, and stands before the first section of this name. */
  predicate Hides<T>(sc: Scheme<T>, list: seq<T>, edit: Edit<T>, section: Name) {
    && edit.Set? && Opens(sc, section, edit.entry)
    && First(Opener(sc, edit.section), list) < First(Opener(sc, section), list)
  }

  /** The blank elements that close the section of the edit. */
  function Tail<T>(sc: Scheme<T>, list: seq<T>, edit: Edit<T>): seq<T> {
    match Body(sc, list, edit.section)
    case None => []
    case Some(body) => body[StemLength(sc.blank, body)..]
  }

  /** The entry is itself a header, and cuts off the blanks of which the first was read under the empty name. */
  predicate CutsOff<T>(sc: Scheme<T>, list: seq<T>, edit: Edit<T>, section: Name, key: Name) {
    && edit.Set? && sc.header(edit.entry) && edit.section == section && key == NO_NAME && Tail(sc, list, edit) != []
    && match Body(sc, list, section)
       case None => false
       case Some(body) => First(Assigner(sc, NO_NAME), body) >= StemLength(sc.blank, body)
  }

  /** The closing blanks are unnamed: they are found under the empty name only. */
  lemma {:induction false} TailFound<T>(sc: Scheme<T>, list: seq<T>, edit: Edit<T>, key: Name)
    requires forall x :: sc.blank(x) ==> sc.key(x) == NO_NAME
    ensures var tail := Tail(sc, list, edit);
            && (forall j :: 0 <= j < |tail| ==> sc.blank(tail[j]))
            && Pick(Assigner(sc, key), tail) == if key == NO_NAME && tail != [] then Some(tail[0]) else None
  {
    var tail := Tail(sc, list, edit);
    forall j | 0 <= j < |tail|
      ensures sc.blank(tail[j])
    {
      var body := Body(sc, list, edit.section).value;
      assert tail[j] == body[StemLength(sc.blank, body) + j];
    }
    FirstNone(Assigner(sc, key), tail);
  }

  /** A name that is taken, or cut off, was not read before the closing blanks. */
  lemma {:induction false} ReadInTail<T>(sc: Scheme<T>, list: seq<T>, edit: Edit<T>, section: Name, key: Name)
    requires edit.Set? && Steers(sc, list, edit) && edit.key != key
    requires Takes(sc, list, edit, section, key) || CutsOff(sc, list, edit, section, key)
    ensures Lookup(sc, list, section, key) == Pick(Assigner(sc, key), Tail(sc, list, edit))
  {
    match Body(sc, list, section)
    case None =>
      FirstNone(Assigner(sc, key), []);
    case Some(body) =>
      BodyElements(sc, list, section, body);
      var at := StemLength(sc.blank, body);
      assert Takes(sc, list, edit, section, key) ==> First(Assigner(sc, edit.key), body) == |body|;
      PickBehind(Assigner(sc, key), body, at);
  }

  lemma {:induction false} PickBehind<T>(p: T -> bool, s: seq<T>, at: nat)
    requires at <= First(p, s)
    ensures Pick(p, s) == Pick(p, s[at..])
  {
    assert s == s[..at] + s[at..];
    FirstConcat(p, s[..at], s[at..]);
    FirstNone(p, s[..at]);
  }

  /** What a write of an entry that is itself a header makes of every name: it moves the blanks behind it, no more. */
  lemma {:induction false} SetHides<T>(sc: Scheme<T>, list: seq<T>, edit: Edit<T>, section: Name, key: Name)
    requires sc.Sane() && (forall x :: sc.blank(x) ==> sc.key(x) == NO_NAME)
    requires edit.Set? && Opens(sc, edit.section, edit.header) && sc.header(edit.entry)
    requires forall x :: x in list ==> sc.key(x) != edit.key
    ensures Lookup(sc, After(sc, list, edit), section, key)
            == if LeaksBlank(sc, list, edit, section, key) then Some(sc.gap)
               else if Hides(sc, list, edit, section) then Pick(Assigner(sc, key), Tail(sc, list, edit))
               else if CutsOff(sc, list, edit, section, key) then None
               else Lookup(sc, list, section, key)
  {
    if First(Opener(sc, edit.section), list) < |list| {
      var a, h, b, c := ActsInside(sc, list, edit);
      var p, q := InsertSplits(sc, b, edit);
      HidesInside(sc, edit, a, h, p, q, c, section, key);
      CutOff(sc, p, q, key);
    } else {
      HidesBehind(sc, list, edit, section, key);
    }
  }

  lemma {:induction false} CutOff<T>(sc: Scheme<T>, p: seq<T>, q: seq<T>, key: Name)
    requires (forall x :: sc.blank(x) ==> sc.key(x) == NO_NAME) && forall j :: 0 <= j < |q| ==> sc.blank(q[j])
    ensures Pick(Assigner(sc, key), p)
            == if key == NO_NAME && q != [] && First(Assigner(sc, NO_NAME), p + q) >= |p| then None
               else Pick(Assigner(sc, key), p + q)
  {
    FirstConcat(Assigner(sc, key), p, q);
    FirstNone(Assigner(sc, key), q);
  }

  lemma {:induction false} HidesInside<T>(sc: Scheme<T>, edit: Edit<T>, a: seq<T>, h: T, p: seq<T>, q: seq<T>,
                                          c: seq<T>, section: Name, key: Name)
    requires edit.Set? && sc.header(edit.entry)
    requires Around(Opener(sc, edit.section), sc.header, a, h, p + q, c)
    requires NoneOf(sc.header, p) && NoneOf(sc.header, q)
    ensures Lookup(sc, a + [h] + (p + [edit.entry] + q) + c, section, key)
            == if Hides(sc, a + [h] + (p + q) + c, edit, section) then Pick(Assigner(sc, key), q)
               else if section == edit.section then Pick(Assigner(sc, key), p)
               else Lookup(sc, a + [h] + (p + q) + c, section, key)
  {
    BlockAround(Opener(sc, edit.section), sc.header, a, h, p + q, c);
    BlockAnywhere(Opener(sc, section), sc.header, a, h, p + q, c);
    SplitBody(sc, section, a, h, p, edit.entry, q, c);
    FirstNone(Opener(sc, edit.section), a);
  }

  lemma {:induction false} SplitBody<T>(sc: Scheme<T>, section: Name, a: seq<T>, h: T, p: seq<T>, e: T, q: seq<T>,
                                        c: seq<T>)
    requires sc.header(h) && sc.header(e) && (c != [] ==> sc.header(c[0]))
    requires NoneOf(sc.header, p) && NoneOf(sc.header, q)
    ensures Body(sc, a + [h] + (p + [e] + q) + c, section)
            == if First(Opener(sc, section), a) < |a| then Body(sc, a, section)
               else if Opens(sc, section, h) then Some(p)
               else if Opens(sc, section, e) then Some(q)
               else Body(sc, c, section)
  {
    Resplit(a, h, p, e, q, c);
    BlockAnywhere(Opener(sc, section), sc.header, a, h, p, [e] + q + c);
    BlockAnywhere(Opener(sc, section), sc.header, [], e, q, c);
  }

  /** Where an entry goes whose key is not there. */
  lemma {:induction false} InsertSplits<T>(sc: Scheme<T>, b: seq<T>, edit: Edit<T>) returns (p: seq<T>, q: seq<T>)
    requires edit.Set? && NoneOf(sc.header, b) && forall j :: 0 <= j < |b| ==> sc.key(b[j]) != edit.key
    ensures b == p + q && EditBody(sc, b, edit) == Some(p + [edit.entry] + q)
    ensures NoneOf(sc.header, p) && NoneOf(sc.header, q) && forall j :: 0 <= j < |q| ==> sc.blank(q[j])
    ensures |p| == StemLength(sc.blank, b) && q == b[|p|..]
  {
    p, q := PutInserts(Assigner(sc, edit.key), sc.blank, b, edit.entry);
    assert (p + q)[|p|..] == q;
    NoneParts(sc.header, p, q);
  }

  lemma {:induction false} NoneParts<T>(p: T -> bool, a: seq<T>, b: seq<T>)
    requires NoneOf(p, a + b)
    ensures NoneOf(p, a) && NoneOf(p, b)
  {
    forall j | 0 <= j < |a|
      ensures !p(a[j])
    {
      assert a[j] == (a + b)[j];
    }
    forall j | 0 <= j < |b|
      ensures !p(b[j])
    {
      assert b[j] == (a + b)[|a| + j];
    }
  }

  lemma {:induction false} Resplit<T>(a: seq<T>, h: T, p: seq<T>, e: T, q: seq<T>, c: seq<T>)
    ensures a + [h] + (p + [e] + q) + c == a + [h] + p + ([e] + q + c)
    ensures [] + [e] + q + c == [e] + q + c
  {
  }

  lemma {:induction false} HidesBehind<T>(sc: Scheme<T>, list: seq<T>, edit: Edit<T>, section: Name, key: Name)
    requires sc.Sane() && edit.Set? && Opens(sc, edit.section, edit.header) && sc.header(edit.entry)
    requires First(Opener(sc, edit.section), list) == |list|
    ensures Lookup(sc, After(sc, list, edit), section, key)
            == if LeaksBlank(sc, list, edit, section, key) then Some(sc.gap) else Lookup(sc, list, section, key)
  {
    var opens, e, front := Opener(sc, section), edit.entry, list + Gap(sc, list);
    assert After(sc, list, edit) == front + [edit.header, e];
    FirstConcat(opens, list, Gap(sc, list));
    AppendBlank(sc, list, section);
    assert list + [] == list;
    if First(opens, front) < |front| {
      BlockInFront(opens, sc.header, front, [edit.header, e]);
      if Body(sc, list, section).Some? {
        BlankSeen(sc, Body(sc, list, section).value, key);
      }
    } else {
      FirstNone(opens, front);
      BlockBehind(opens, sc.header, front, [edit.header, e]);
      TwoHeaders(sc, edit.header, e, section);
    }
  }

  lemma {:induction false} TwoHeaders<T>(sc: Scheme<T>, h: T, e: T, section: Name)
    requires sc.header(h) && sc.header(e)
    ensures var body := Body(sc, [h, e], section); body == None || body == Some([])
  {
    var opens := Opener(sc, section);
    if opens(h) {
      BlockIs(opens, sc.header, [h, e], 0, 1);
    } else if opens(e) {
      BlockIs(opens, sc.header, [h, e], 1, 2);
    } else {
      FirstNone(opens, [h, e]);
    }
  }

  lemma {:induction false} BodyElements<T>(sc: Scheme<T>, list: seq<T>, section: Name, b: seq<T>)
    requires Body(sc, list, section) == Some(b)
    ensures forall x :: x in b ==> x in list
  {
  }

  /** Deleting a key shows through at no other name, whatever duplicates the list holds. */
  lemma {:induction false} DropKeyFrame<T>(sc: Scheme<T>, list: seq<T>, edit: Edit<T>, section: Name, key: Name)
    requires edit.DropKey? && !edit.Touches(section, key)
    ensures Lookup(sc, After(sc, list, edit), section, key) == Lookup(sc, list, section, key)
  {
    if First(Opener(sc, edit.section), list) < |list| {
      var b := Inside(sc, list, edit);
      if section == edit.section {
        BodyFrame(sc, b, edit, key);
      }
    }
  }

  /** Deleting a section leaves the bodies of all other sections alone. */
  lemma {:induction false} DropSectionFrame<T>(sc: Scheme<T>, list: seq<T>, edit: Edit<T>, section: Name)
    requires edit.DropSection? && edit.section != section
    ensures Body(sc, After(sc, list, edit), section) == Body(sc, list, section)
  {
    if First(Opener(sc, edit.section), list) < |list| {
      var a, h, b, c := ActsInside(sc, list, edit);
      OtherBlock(sc.header, a, h, b, c, Opener(sc, section));
      if First(Opener(sc, section), a) < |a| {
        BlockInFront(Opener(sc, section), sc.header, a, c);
      } else {
        BlockBehind(Opener(sc, section), sc.header, a, c);
      }
    }
  }

  /** No edit changes what a reader finds under any other name. */
  lemma {:induction false} Frame<T>(sc: Scheme<T>, list: seq<T>, edit: Edit<T>, section: Name, key: Name)
    requires sc.Sane() && edit.Clean(sc) && key != NO_NAME && !edit.Touches(section, key)
    ensures Lookup(sc, After(sc, list, edit), section, key) == Lookup(sc, list, section, key)
  {
    match edit
    case Set(_, _, _, _) => SetFrame(sc, list, edit, section, key);
    case DropKey(_, _) => DropKeyFrame(sc, list, edit, section, key);
    case DropSection(_) => DropSectionFrame(sc, list, edit, section);
  }

  // ---------- unique names ----------

  function Keyed<T>(sc: Scheme<T>): T -> bool {
    x => sc.IsKeyed(x)
  }

  ghost predicate UniqueKeys<T>(sc: Scheme<T>, body: Option<seq<T>>) {
    body.Some? ==> Distinct(Keyed(sc), sc.key, body.value)
  }

  /** No two headers name the same section, and no two entries of a section have the same key. */
  ghost predicate WellFormed<T>(sc: Scheme<T>, list: seq<T>) {
    && Distinct(sc.header, sc.name, list)
    && forall section :: UniqueKeys(sc, Body(sc, list, section))
  }

  lemma {:induction false} BodyStaysUnique<T>(sc: Scheme<T>, b: seq<T>, edit: Edit<T>)
    requires edit.Clean(sc) && !edit.DropSection? && UniqueKeys(sc, Some(b))
    ensures UniqueKeys(sc, EditBody(sc, b, edit))
  {
    if edit.Set? {
      PutDistinct(Assigner(sc, edit.key), sc.blank, b, edit.entry, Keyed(sc), sc.key);
    } else {
      var j := First(Assigner(sc, edit.key), b);
      if j < |b| {
        assert b == b[..j] + [b[j]] + b[j + 1..];
        DistinctReplace(Keyed(sc), sc.key, b[..j], [b[j]], [], b[j + 1..]);
        assert b[..j] + [] + b[j + 1..] == b[..j] + b[j + 1..];
      }
    }
  }

  lemma {:induction false} HeadersStayUnique<T>(sc: Scheme<T>, list: seq<T>, edit: Edit<T>)
    requires sc.Sane() && edit.Clean(sc) && Distinct(sc.header, sc.name, list)
    ensures Distinct(sc.header, sc.name, After(sc, list, edit))
  {
    if First(Opener(sc, edit.section), list) == |list| {
      if edit.Set? {
        NewHeaderUnique(sc, list, edit);
      }
    } else {
      var a, h, b, c := ActsInside(sc, list, edit);
      var r := After(sc, list, edit);
      if edit.DropSection? {
        DistinctCut(sc.header, sc.name, a, h, b, c);
        assert r == a + c;
      } else if EditBody(sc, b, edit).Some? {
        BodyStaysPlain(sc, b, edit);
        DistinctReplace(sc.header, sc.name, a + [h], b, EditBody(sc, b, edit).value, c);
      }
    }
  }

  lemma {:induction false} NewHeaderUnique<T>(sc: Scheme<T>, list: seq<T>, edit: Edit<T>)
    requires sc.Sane() && edit.Set? && edit.Clean(sc) && Distinct(sc.header, sc.name, list)
    requires First(Opener(sc, edit.section), list) == |list|
    ensures Distinct(sc.header, sc.name, list + Gap(sc, list) + [edit.header] + [edit.entry])
  {
    var r := list + Gap(sc, list) + [edit.header] + [edit.entry];
    forall i, j | 0 <= i < j < |r|
      ensures Apart(sc.header, sc.name, r[i], r[j])
    {
      if j < |list| {
        assert r[i] == list[i] && r[j] == list[j];
        assert Apart(sc.header, sc.name, list[i], list[j]);
      } else if sc.header(r[i]) && sc.header(r[j]) {
        assert r[j] == edit.header && r[i] == list[i];
      }
    }
  }

  /** With unique names, deleting a section leaves no section of that name. */
  lemma {:induction false} SectionGone<T>(sc: Scheme<T>, list: seq<T>, edit: Edit<T>)
    requires edit.DropSection? && Distinct(sc.header, sc.name, list)
    ensures Body(sc, After(sc, list, edit), edit.section) == None
  {
    if First(Opener(sc, edit.section), list) < |list| {
      var a, h, b, c := ActsInside(sc, list, edit);
      GoneAround(sc, edit.section, a, h, b, c);
    }
  }

  lemma {:induction false} GoneAround<T>(sc: Scheme<T>, section: Name, a: seq<T>, h: T, b: seq<T>, c: seq<T>)
    requires Distinct(sc.header, sc.name, a + [h] + b + c)
    requires NoneOf(Opener(sc, section), a) && Opens(sc, section, h)
    ensures Body(sc, a + c, section) == None
  {
    assert a + [h] + b + c == a + [h] + (b + c);
    NoneBehind(sc.header, sc.name, a, h, b + c, Opener(sc, section));
    NoneParts(Opener(sc, section), b, c);
    NoneJoined(Opener(sc, section), a, c);
    FirstNone(Opener(sc, section), a + c);
  }

  lemma {:induction false} NoneJoined<T>(p: T -> bool, a: seq<T>, b: seq<T>)
    requires NoneOf(p, a) && NoneOf(p, b)
    ensures NoneOf(p, a + b)
  {
  }

  lemma {:induction false} SectionStaysUnique<T>(sc: Scheme<T>, list: seq<T>, edit: Edit<T>, section: Name)
    requires sc.Sane() && edit.Clean(sc)
    requires Distinct(sc.header, sc.name, list) && UniqueKeys(sc, Body(sc, list, section))
    ensures UniqueKeys(sc, Body(sc, After(sc, list, edit), section))
  {
    if First(Opener(sc, edit.section), list) == |list| {
      if edit.Set? {
        Appended(sc, list, edit);
        if section != edit.section {
          AppendBlank(sc, list, section);
          assert list + [] == list;
        }
      }
    } else if edit.DropSection? {
      if section != edit.section {
        DropSectionFrame(sc, list, edit, section);
      } else {
        SectionGone(sc, list, edit);
      }
    } else {
      var b := Inside(sc, list, edit);
      if section == edit.section {
        BodyStaysUnique(sc, b, edit);
      }
    }
  }

  /** Edits keep a well-formed list well-formed. */
  lemma {:induction false} StaysWellFormed<T>(sc: Scheme<T>, list: seq<T>, edit: Edit<T>)
    requires sc.Sane() && edit.Clean(sc) && WellFormed(sc, list)
    ensures WellFormed(sc, After(sc, list, edit))
  {
    HeadersStayUnique(sc, list, edit);
    forall section
      ensures UniqueKeys(sc, Body(sc, After(sc, list, edit), section))
    {
      assert UniqueKeys(sc, Body(sc, list, section));
      SectionStaysUnique(sc, list, edit, section);
    }
  }

  /** With unique names, a name is gone once it is deleted. */
  lemma {:induction false} Gone<T>(sc: Scheme<T>, list: seq<T>, edit: Edit<T>, section: Name, key: Name)
    requires !edit.Set? && WellFormed(sc, list) && key != NO_NAME && edit.Touches(section, key)
    ensures Lookup(sc, After(sc, list, edit), section, key) == None
  {
    if edit.DropSection? {
      SectionGone(sc, list, edit);
    } else if First(Opener(sc, section), list) < |list| {
      var b := Inside(sc, list, edit);
      assert UniqueKeys(sc, Body(sc, list, section));
      CutGone(Assigner(sc, key), b, Keyed(sc), sc.key, key);
      FirstNone(Assigner(sc, key), b);
      if EditBody(sc, b, edit).Some? {
        FirstNone(Assigner(sc, key), EditBody(sc, b, edit).value);
      }
    }
  }

  // ---------- whole runs ----------

  function Run<T>(sc: Scheme<T>, list: seq<T>, edits: seq<Edit<T>>): seq<T> {
    if edits == [] then list
    else After(sc, Run(sc, list, edits[..|edits| - 1]), edits[|edits| - 1])
  }

  /** What a map from names to entries would hold: the latest edit of the name decides, else the original list. */
  function Expected<T>(sc: Scheme<T>, list: seq<T>, edits: seq<Edit<T>>, section: Name, key: Name): Option<T> {
    if edits == [] then Lookup(sc, list, section, key)
    else
      var last := edits[|edits| - 1];
      if !last.Touches(section, key) then Expected(sc, list, edits[..|edits| - 1], section, key)
      else if last.Set? then Some(last.entry)
      else None
  }

  /**
   The list refines a map: after any sequence of writes, key deletions and section deletions of a well-formed
   list, it is well-formed and every name reads as the latest edit of that name left it.
   */
  lemma {:induction false} RunRefinesMap<T>(sc: Scheme<T>, list: seq<T>, edits: seq<Edit<T>>)
    requires sc.Sane() && WellFormed(sc, list) && forall i :: 0 <= i < |edits| ==> edits[i].Clean(sc)
    ensures WellFormed(sc, Run(sc, list, edits))
    ensures forall section, key :: key != NO_NAME ==>
              Lookup(sc, Run(sc, list, edits), section, key) == Expected(sc, list, edits, section, key)
  {
    if edits != [] {
      var front, last := edits[..|edits| - 1], edits[|edits| - 1];
      RunRefinesMap(sc, list, front);
      var mid := Run(sc, list, front);
      StaysWellFormed(sc, mid, last);
      forall section, key | key != NO_NAME
        ensures Lookup(sc, After(sc, mid, last), section, key) == Expected(sc, list, edits, section, key)
      {
        OneMore(sc, list, mid, edits, section, key);
      }
    }
  }

  lemma {:induction false} OneMore<T>(sc: Scheme<T>, list: seq<T>, mid: seq<T>, edits: seq<Edit<T>>, section: Name,
                                      key: Name)
    requires sc.Sane() && WellFormed(sc, mid) && edits != [] && edits[|edits| - 1].Clean(sc) && key != NO_NAME
    requires Lookup(sc, mid, section, key) == Expected(sc, list, edits[..|edits| - 1], section, key)
    ensures Lookup(sc, After(sc, mid, edits[|edits| - 1]), section, key) == Expected(sc, list, edits, section, key)
  {
    var last := edits[|edits| - 1];
    if !last.Touches(section, key) {
      Frame(sc, mid, last, section, key);
    } else if last.Set? {
      ReadBack(sc, mid, last);
    } else {
      Gone(sc, mid, last, section, key);
    }
  }

  // ---------- what a list may consist of ----------

  lemma {:induction false} PutElements<T>(p: T -> bool, pad: T -> bool, s: seq<T>, x: T, y: T)
    requires y in Put(p, pad, s, x)
    ensures y == x || y in s
  {
    var front, gone, back := PutSplit(p, pad, s, x);
  }

  /** An edit brings in nothing but the elements it writes and the blank element before a new section. */
  lemma {:induction false} AfterElements<T>(sc: Scheme<T>, list: seq<T>, edit: Edit<T>, y: T)
    requires y in After(sc, list, edit)
    ensures y in list || y == sc.gap || (edit.Set? && (y == edit.header || y == edit.entry))
  {
    if First(Opener(sc, edit.section), list) < |list| {
      var a, h, b, c := ActsInside(sc, list, edit);
      if edit.Set? && y in Put(Assigner(sc, edit.key), sc.blank, b, edit.entry) {
        PutElements(Assigner(sc, edit.key), sc.blank, b, edit.entry, y);
      }
    }
  }

  /** A list of one blank element reads like the empty list. */
  lemma {:induction false} OnlyBlank<T>(sc: Scheme<T>)
    requires sc.Sane()
    ensures WellFormed(sc, [sc.gap])
    ensures forall section :: Body(sc, [sc.gap], section) == None && Body(sc, [], section) == None
  {
    forall section
      ensures Body(sc, [sc.gap], section) == None && Body(sc, [], section) == None
    {
      FirstNone(Opener(sc, section), [sc.gap]);
    }
  }

  /** What holds of the first element and of all headers is kept by every edit whose header it holds of. */
  lemma {:induction false} FirstElementKept<T>(sc: Scheme<T>, list: seq<T>, edit: Edit<T>, ok: T -> bool)
    requires edit.Clean(sc) && (edit.Set? ==> ok(edit.header))
    requires list != [] ==> ok(list[0])
    requires forall x :: x in list && sc.header(x) ==> ok(x)
    ensures After(sc, list, edit) != [] ==> ok(After(sc, list, edit)[0])
  {
    if First(Opener(sc, edit.section), list) < |list| {
      var a, h, b, c := ActsInside(sc, list, edit);
      assert a != [] ==> list[0] == a[0];
      assert a == [] ==> list[0] == h;
      assert c != [] ==> c[0] in list;
    }
  }
}
