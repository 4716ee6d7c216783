/** Word expansion results (brush-core/src/expansion.rs): pieces that remember whether they
    may still be split, and the field splitting that follows expansion. */
module Expansion {
  import opened Wrappers

  datatype Piece = Unsplittable(s: string) | Splittable(s: string)

  type WordField = seq<Piece>

  // ----- Field splitting ------------------------------------------------------------------

  /** What a splitter can see: a piece that must stay whole, a character, or a place where
      one field ends. */
  datatype Mark = Whole(s: string) | Ch(c: char) | Break

  function MarksOfText(ifs: set<char>, s: string): seq<Mark> {
    seq(|s|, i requires 0 <= i < |s| => if s[i] in ifs then Break else Ch(s[i]))
  }

  function MarksOfPiece(ifs: set<char>, p: Piece): seq<Mark> {
    match p
    case Unsplittable(s) => [Whole(s)]
    case Splittable(s) => MarksOfText(ifs, s)
  }

  function MarksOfField(ifs: set<char>, f: WordField): seq<Mark> {
    if f == [] then [] else MarksOfField(ifs, f[..|f| - 1]) + MarksOfPiece(ifs, f[|f| - 1])
  }

  function Marks(ifs: set<char>, fields: seq<WordField>): seq<Mark> {
    if fields == [] then []
    else Marks(ifs, fields[..|fields| - 1]) + (MarksOfField(ifs, fields[|fields| - 1]) + [Break])
  }

  /** The non-empty groups of marks between breaks; `open` is the group not yet ended. */
  datatype Grouping = Grouping(groups: seq<seq<Mark>>, open: seq<Mark>)

  function AddMark(g: Grouping, m: Mark): Grouping {
    if m != Break then g.(open := g.open + [m])
    else if g.open == [] then g
    else Grouping(g.groups + [g.open], [])
  }

  function Group(marks: seq<Mark>): Grouping {
    if marks == [] then Grouping([], []) else AddMark(Group(marks[..|marks| - 1]), marks[|marks| - 1])
  }

  /** A field as the splitter builds it: it is not empty, its splittable pieces are not empty
      and hold no IFS character, and two of them never stand side by side. */
  ghost predicate WellSplit(ifs: set<char>, f: WordField) {
    && (forall i :: 0 <= i < |f| && f[i].Splittable? ==> f[i].s != "" && forall c :: c in f[i].s ==> c !in ifs)
    && (forall i :: 0 <= i < |f| - 1 ==> f[i].Unsplittable? || f[i + 1].Unsplittable?)
  }

  /** `out` has one well-split field for each group of `in`, with the same marks. */
  ghost predicate IsSplit(ifs: set<char>, fields: seq<WordField>, out: seq<WordField>) {
    var groups := Group(Marks(ifs, fields)).groups;
    && |out| == |groups|
    && forall i :: 0 <= i < |out| ==> WellSplit(ifs, out[i]) && MarksOfField(ifs, out[i]) == groups[i]
  }

  function PushChar(f: WordField, c: char): WordField {
    if f != [] && f[|f| - 1].Splittable? then f[..|f| - 1] + [Splittable(f[|f| - 1].s + [c])]
    else f + [Splittable([c])]
  }

  lemma PushPiece(ifs: set<char>, f: WordField, p: Piece)
    ensures MarksOfField(ifs, f + [p]) == MarksOfField(ifs, f) + MarksOfPiece(ifs, p)
    ensures WellSplit(ifs, f) && p.Unsplittable? ==> WellSplit(ifs, f + [p])
  {
    assert (f + [p])[..|f|] == f;
  }

  lemma PushCharMarks(ifs: set<char>, f: WordField, c: char)
    requires c !in ifs
    ensures MarksOfField(ifs, PushChar(f, c)) == MarksOfField(ifs, f) + [Ch(c)]
  {
    if f != [] && f[|f| - 1].Splittable? {
      var init, s := f[..|f| - 1], f[|f| - 1].s;
      PushPiece(ifs, init, Splittable(s + [c]));
      assert MarksOfText(ifs, s + [c]) == MarksOfText(ifs, s) + [Ch(c)];
      assert MarksOfField(ifs, f) == MarksOfField(ifs, init) + MarksOfText(ifs, s);
    } else {
      PushPiece(ifs, f, Splittable([c]));
      assert MarksOfText(ifs, [c]) == [Ch(c)];
    }
  }

  lemma PushCharWell(ifs: set<char>, f: WordField, c: char)
    requires c !in ifs && WellSplit(ifs, f)
    ensures WellSplit(ifs, PushChar(f, c))
  {
  }

  lemma GroupSnoc(marks: seq<Mark>, m: Mark)
    ensures Group(marks + [m]) == AddMark(Group(marks), m)
  {
    assert (marks + [m])[..|marks|] == marks;
  }

  lemma NoMarksNoPieces(ifs: set<char>, f: WordField)
    requires WellSplit(ifs, f)
    ensures MarksOfField(ifs, f) == [] <==> f == []
  {
  }

  /** The splitter's own state agrees with the grouping of the marks it has passed. */
  ghost predicate Agrees(ifs: set<char>, marks: seq<Mark>, fields: seq<WordField>, current: WordField) {
    var g := Group(marks);
    && |fields| == |g.groups|
    && (forall i :: 0 <= i < |fields| ==> WellSplit(ifs, fields[i]) && MarksOfField(ifs, fields[i]) == g.groups[i])
    && WellSplit(ifs, current)
    && MarksOfField(ifs, current) == g.open
  }

  lemma NoPieces(ifs: set<char>)
    ensures WellSplit(ifs, []) && MarksOfField(ifs, []) == []
  {
  }

  lemma BreakAgrees(ifs: set<char>, marks: seq<Mark>, fields: seq<WordField>, current: WordField)
    requires Agrees(ifs, marks, fields, current)
    ensures Agrees(ifs, marks + [Break], if current == [] then fields else fields + [current], [])
  {
    hide Group, WellSplit, MarksOfField;
    GroupSnoc(marks, Break);
    NoMarksNoPieces(ifs, current);
    NoPieces(ifs);
  }

  lemma CharAgrees(ifs: set<char>, marks: seq<Mark>, fields: seq<WordField>, current: WordField, c: char)
    requires Agrees(ifs, marks, fields, current) && c !in ifs
    ensures Agrees(ifs, marks + [Ch(c)], fields, PushChar(current, c))
  {
    GroupSnoc(marks, Ch(c));
    PushCharMarks(ifs, current, c);
    PushCharWell(ifs, current, c);
  }

  lemma WholeAgrees(ifs: set<char>, marks: seq<Mark>, fields: seq<WordField>, current: WordField, s: string)
    requires Agrees(ifs, marks, fields, current)
    ensures Agrees(ifs, marks + [Whole(s)], fields, current + [Unsplittable(s)])
  {
    GroupSnoc(marks, Whole(s));
    PushPiece(ifs, current, Unsplittable(s));
  }

  lemma MarksOfTextAre(ifs: set<char>, s: string)
    ensures |MarksOfText(ifs, s)| == |s|
    ensures forall i :: 0 <= i < |s| ==> MarksOfText(ifs, s)[i] == if s[i] in ifs then Break else Ch(s[i])
  {
  }

  method SplitText(ifs: set<char>, s: string, fields: seq<WordField>, current: WordField, ghost marks: seq<Mark>)
    returns (fields': seq<WordField>, current': WordField)
    requires Agrees(ifs, marks, fields, current)
    ensures Agrees(ifs, marks + MarksOfText(ifs, s), fields', current')
  {
    hide Agrees, MarksOfText;
    fields', current' := fields, current;
    ghost var all := MarksOfText(ifs, s);
    MarksOfTextAre(ifs, s);
    assert marks + all[..0] == marks;
    for i := 0 to |s|
      invariant Agrees(ifs, marks + all[..i], fields', current')
    {
      assert marks + all[..i + 1] == marks + all[..i] + [all[i]];
      if s[i] in ifs {
        BreakAgrees(ifs, marks + all[..i], fields', current');
        if current' != [] {
          fields', current' := fields' + [current'], [];
        }
      } else {
        CharAgrees(ifs, marks + all[..i], fields', current', s[i]);
        current' := PushChar(current', s[i]);
      }
    }
    assert all[..|s|] == all;
  }

  lemma MarksOfPrefix(ifs: set<char>, marks: seq<Mark>, field: WordField, j: nat)
    requires j < |field|
    ensures marks + MarksOfField(ifs, field[..j + 1]) == marks + MarksOfField(ifs, field[..j]) + MarksOfPiece(ifs, field[j])
  {
    PushPiece(ifs, field[..j], field[j]);
    hide MarksOfField, MarksOfPiece;
    assert field[..j + 1] == field[..j] + [field[j]];
  }

  method SplitPieces(ifs: set<char>, field: WordField, fields: seq<WordField>, current: WordField,
                     ghost marks: seq<Mark>)
    returns (fields': seq<WordField>, current': WordField)
    requires Agrees(ifs, marks, fields, current)
    ensures Agrees(ifs, marks + MarksOfField(ifs, field), fields', current')
  {
    fields', current' := fields, current;
    assert marks + MarksOfField(ifs, field[..0]) == marks;
    for j := 0 to |field|
      invariant Agrees(ifs, marks + MarksOfField(ifs, field[..j]), fields', current')
    {
      ghost var passed := marks + MarksOfField(ifs, field[..j]);
      MarksOfPrefix(ifs, marks, field, j);
      match field[j]
      case Unsplittable(s) =>
        WholeAgrees(ifs, passed, fields', current', s);
        current' := current' + [field[j]];
      case Splittable(s) =>
        fields', current' := SplitText(ifs, s, fields', current', passed);
    }
    assert field[..|field|] == field;
  }

  lemma StartAgrees(ifs: set<char>)
    ensures Agrees(ifs, Marks(ifs, []), [], [])
  {
  }

  lemma AgreesInTheEnd(ifs: set<char>, expansion: seq<WordField>, fields: seq<WordField>)
    requires Agrees(ifs, Marks(ifs, expansion), fields, [])
    ensures IsSplit(ifs, expansion, fields)
  {
  }

  lemma MarksSnoc(ifs: set<char>, expansion: seq<WordField>, i: nat)
    requires i < |expansion|
    ensures Marks(ifs, expansion[..i + 1]) == Marks(ifs, expansion[..i]) + MarksOfField(ifs, expansion[i]) + [Break]
  {
    assert expansion[..i + 1][..i] == expansion[..i];
  }

  method SplitFields(ifs: set<char>, expansion: seq<WordField>) returns (fields: seq<WordField>)
    ensures IsSplit(ifs, expansion, fields)
  {
    hide Agrees, IsSplit, Marks, MarksOfField;
    fields := [];
    var currentField: WordField := [];
    StartAgrees(ifs);
    assert expansion[..0] == [];
    for i := 0 to |expansion|
      invariant Agrees(ifs, Marks(ifs, expansion[..i]), fields, currentField) && currentField == []
    {
      ghost var marks := Marks(ifs, expansion[..i]);
      fields, currentField := SplitPieces(ifs, expansion[i], fields, currentField, marks);
      BreakAgrees(ifs, marks + MarksOfField(ifs, expansion[i]), fields, currentField);
      MarksSnoc(ifs, expansion, i);
      if currentField != [] {
        fields := fields + [currentField];
        currentField := [];
      }
    }
    assert expansion[..|expansion|] == expansion;
    AgreesInTheEnd(ifs, expansion, fields);
  }

  // What the specification says of every splitter that meets it.

  ghost predicate NoBreak(marks: seq<Mark>) {
    forall i :: 0 <= i < |marks| ==> marks[i] != Break
  }

  lemma {:induction false} GroupsNotEmpty(marks: seq<Mark>)
    ensures forall g :: g in Group(marks).groups ==> g != [] && NoBreak(g)
    ensures NoBreak(Group(marks).open)
  {
    if marks != [] {
      GroupsNotEmpty(marks[..|marks| - 1]);
    }
  }

  function Flatten(groups: seq<seq<Mark>>): seq<Mark> {
    if groups == [] then [] else Flatten(groups[..|groups| - 1]) + groups[|groups| - 1]
  }

  /** The pieces that stay whole and the characters outside IFS. */
  function Content(marks: seq<Mark>): seq<Mark> {
    if marks == [] then []
    else Content(marks[..|marks| - 1]) + (if marks[|marks| - 1] == Break then [] else [marks[|marks| - 1]])
  }

  lemma {:induction false} GroupsKeepContent(marks: seq<Mark>)
    ensures Flatten(Group(marks).groups) + Group(marks).open == Content(marks)
  {
    if marks != [] {
      var g := Group(marks[..|marks| - 1]);
      GroupsKeepContent(marks[..|marks| - 1]);
      assert (g.groups + [g.open])[..|g.groups|] == g.groups;
    }
  }

  lemma MarksEndInBreak(ifs: set<char>, fields: seq<WordField>)
    ensures Group(Marks(ifs, fields)).open == []
  {
    if fields != [] {
      var marks := Marks(ifs, fields[..|fields| - 1]) + MarksOfField(ifs, fields[|fields| - 1]);
      GroupSnoc(marks, Break);
      assert Marks(ifs, fields) == marks + [Break];
    }
  }

  /** No field without pieces; every unsplittable piece whole and in order; the characters
      outside IFS in order. */
  lemma SplitKeepsContent(ifs: set<char>, expansion: seq<WordField>, fields: seq<WordField>)
    requires IsSplit(ifs, expansion, fields)
    ensures [] !in fields
    ensures Content(Marks(ifs, fields)) == Content(Marks(ifs, expansion))
  {
    var groups := Group(Marks(ifs, expansion)).groups;
    GroupsNotEmpty(Marks(ifs, expansion));
    GroupsKeepContent(Marks(ifs, expansion));
    MarksEndInBreak(ifs, expansion);
    forall i | 0 <= i < |fields|
      ensures fields[i] != []
    {
      assert groups[i] in groups;
    }
    assert forall i :: 0 <= i < |fields| ==> MarksOfField(ifs, fields[i]) == groups[i] && groups[i] in groups;
    ContentOfFields(ifs, fields, groups);
  }

  lemma {:induction false} ContentConcat(a: seq<Mark>, b: seq<Mark>)
    ensures Content(a + b) == Content(a) + Content(b)
  {
    if b == [] {
      assert a + b == a;
    } else {
      assert (a + b)[..|a + b| - 1] == a + b[..|b| - 1];
      ContentConcat(a, b[..|b| - 1]);
    }
  }

  lemma {:induction false} ContentAll(a: seq<Mark>)
    requires NoBreak(a)
    ensures Content(a) == a
  {
    if a != [] {
      ContentAll(a[..|a| - 1]);
      assert a == a[..|a| - 1] + [a[|a| - 1]];
    }
  }

  lemma {:induction false} ContentOfFields(ifs: set<char>, fields: seq<WordField>, groups: seq<seq<Mark>>)
    requires |fields| == |groups|
    requires forall i :: 0 <= i < |fields| ==> MarksOfField(ifs, fields[i]) == groups[i] && NoBreak(groups[i])
    ensures Content(Marks(ifs, fields)) == Flatten(groups)
  {
    if fields != [] {
      var k := |fields| - 1;
      ContentOfFields(ifs, fields[..k], groups[..k]);
      ContentConcat(Marks(ifs, fields[..k]), groups[k] + [Break]);
      ContentConcat(groups[k], [Break]);
      ContentAll(groups[k]);
      assert Content([Break]) == [];
    }
  }

  lemma MarksDeterminePiece(ifs: set<char>, p: Piece, q: Piece)
    requires MarksOfPiece(ifs, p) == MarksOfPiece(ifs, q) != [] && NoBreak(MarksOfPiece(ifs, p))
    ensures p == q
  {
    var m, n := MarksOfPiece(ifs, p), MarksOfPiece(ifs, q);
    assert m[0] == n[0];
    if p.Splittable? {
      assert forall i :: 0 <= i < |p.s| ==> m[i] == Ch(p.s[i]) && n[i] == Ch(q.s[i]);
    }
  }

  /** What the last piece of a well-split field adds to it. */
  lemma LastPiece(ifs: set<char>, f: WordField)
    requires WellSplit(ifs, f) && f != []
    ensures var init, p := f[..|f| - 1], f[|f| - 1];
            && WellSplit(ifs, init)
            && MarksOfField(ifs, f) == MarksOfField(ifs, init) + MarksOfPiece(ifs, p)
            && MarksOfPiece(ifs, p) != [] && NoBreak(MarksOfPiece(ifs, p))
  {
  }

  /** A well-split field is determined by its marks. */
  lemma {:induction false} MarksDetermineField(ifs: set<char>, f: WordField, g: WordField)
    requires WellSplit(ifs, f) && WellSplit(ifs, g) && MarksOfField(ifs, f) == MarksOfField(ifs, g)
    ensures f == g
  {
    hide WellSplit, MarksOfField, MarksOfPiece, TailMarks, NoBreak;
    NoMarksNoPieces(ifs, f);
    NoMarksNoPieces(ifs, g);
    if f != [] && g != [] {
      LastPiece(ifs, f);
      LastPiece(ifs, g);
      LastPieceMarks(ifs, f);
      LastPieceMarks(ifs, g);
      var p, q := f[|f| - 1], g[|g| - 1];
      SameTail(MarksOfField(ifs, f[..|f| - 1]), MarksOfPiece(ifs, p), MarksOfField(ifs, g[..|g| - 1]), MarksOfPiece(ifs, q));
      MarksDeterminePiece(ifs, p, q);
      MarksDetermineField(ifs, f[..|f| - 1], g[..|g| - 1]);
      assert f == f[..|f| - 1] + [p] && g == g[..|g| - 1] + [q];
    }
  }

  /** The marks of a last piece: one whole piece, or a longest run of characters. */
  ghost predicate TailMarks(a: seq<Mark>, m: seq<Mark>) {
    || (|m| == 1 && m[0].Whole?)
    || (m != [] && (forall i :: 0 <= i < |m| ==> m[i].Ch?) && (a != [] ==> a[|a| - 1].Whole?))
  }

  lemma LastPieceMarks(ifs: set<char>, f: WordField)
    requires WellSplit(ifs, f) && f != []
    ensures TailMarks(MarksOfField(ifs, f[..|f| - 1]), MarksOfPiece(ifs, f[|f| - 1]))
  {
  }

  lemma TailNotLonger(a: seq<Mark>, m: seq<Mark>, b: seq<Mark>, n: seq<Mark>)
    requires a + m == b + n && TailMarks(a, m) && TailMarks(b, n)
    ensures |b| <= |a|
  {
    var all := a + m;
    assert all[|all| - 1] == m[|m| - 1] == n[|n| - 1];
    assert b != [] ==> b[|b| - 1] == all[|b| - 1];
    assert forall k :: |a| <= k < |all| ==> all[k] == m[k - |a|];
  }

  lemma SameTail(a: seq<Mark>, m: seq<Mark>, b: seq<Mark>, n: seq<Mark>)
    requires a + m == b + n && TailMarks(a, m) && TailMarks(b, n)
    ensures a == b && m == n
  {
    TailNotLonger(a, m, b, n);
    TailNotLonger(b, n, a, m);
    assert a == (a + m)[..|a|] == b;
    assert m == (a + m)[|a|..] == n;
  }

  /** The specification leaves no choice. */
  lemma SplitIsUnique(ifs: set<char>, expansion: seq<WordField>, a: seq<WordField>, b: seq<WordField>)
    requires IsSplit(ifs, expansion, a) && IsSplit(ifs, expansion, b)
    ensures a == b
  {
    forall i | 0 <= i < |a|
      ensures a[i] == b[i]
    {
      MarksDetermineField(ifs, a[i], b[i]);
    }
  }

  lemma {:induction false} GroupRun(marks: seq<Mark>, run: seq<Mark>)
    requires NoBreak(run)
    ensures Group(marks + run) == Group(marks).(open := Group(marks).open + run)
  {
    hide Group;
    if run == [] {
      assert marks + run == marks;
      assert Group(marks).open + run == Group(marks).open;
    } else {
      var init := run[..|run| - 1];
      GroupRun(marks, init);
      assert marks + run == marks + init + [run[|run| - 1]];
      GroupSnoc(marks + init, run[|run| - 1]);
    }
  }

  lemma GroupField(marks: seq<Mark>, run: seq<Mark>)
    requires NoBreak(run) && run != [] && Group(marks).open == []
    ensures Group(marks + (run + [Break])) == Grouping(Group(marks).groups + [run], [])
  {
    GroupRun(marks, run);
    GroupSnoc(marks + run, Break);
    assert marks + (run + [Break]) == marks + run + [Break];
    assert [] + run == run;
  }

  lemma NothingGroups()
    ensures Group([]) == Grouping([], [])
  {
  }

  lemma {:induction false} GroupsOfSplit(ifs: set<char>, fields: seq<WordField>, groups: seq<seq<Mark>>)
    requires |fields| == |groups|
    requires forall i :: 0 <= i < |fields| ==> MarksOfField(ifs, fields[i]) == groups[i]
    requires forall i :: 0 <= i < |groups| ==> groups[i] != [] && NoBreak(groups[i])
    ensures Group(Marks(ifs, fields)) == Grouping(groups, [])
  {
    hide Group, MarksOfField;
    if fields == [] {
      NothingGroups();
    } else {
      var k := |fields| - 1;
      GroupsOfSplit(ifs, fields[..k], groups[..k]);
      GroupField(Marks(ifs, fields[..k]), groups[k]);
      assert groups == groups[..k] + [groups[k]];
    }
  }

  /** Splitting what has been split changes nothing. */
  lemma SplitIsIdempotent(ifs: set<char>, expansion: seq<WordField>, once: seq<WordField>, twice: seq<WordField>)
    requires IsSplit(ifs, expansion, once) && IsSplit(ifs, once, twice)
    ensures twice == once
  {
    var groups := Group(Marks(ifs, expansion)).groups;
    GroupsNotEmpty(Marks(ifs, expansion));
    assert forall i :: 0 <= i < |groups| ==> groups[i] in groups;
    GroupsOfSplit(ifs, once, groups);
    SplitIsUnique(ifs, once, once, twice);
  }
}
