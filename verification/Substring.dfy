/** `${x:offset:length}` (brush-core/src/expansion.rs). */
module Substring {
  import opened Decimal
  import opened Wrappers
  import opened Expansion

  datatype Kind = StringKind | IndexedArray(subscripts: seq<nat>) | ElementList | ScalarAsArray {
    predicate SlicesChars() {
      StringKind? || ScalarAsArray?
    }
  }

  datatype Value = Value(fields: seq<WordField>, concatenate: bool, kind: Kind, undefined: bool)

  datatype Error = NegativeLength | Failed

  // ----- Text -------------------------------------------------------------------------------

  /** A character, and whether the piece it stands in may be split. */
  datatype Tagged = Tagged(c: char, splittable: bool)

  function TextOfPiece(p: Piece): seq<Tagged> {
    seq(|p.s|, i requires 0 <= i < |p.s| => Tagged(p.s[i], p.Splittable?))
  }

  function TextOfField(f: WordField): seq<Tagged> {
    if f == [] then [] else TextOfField(f[..|f| - 1]) + TextOfPiece(f[|f| - 1])
  }

  function Text(fields: seq<WordField>): seq<Tagged> {
    if fields == [] then [] else Text(fields[..|fields| - 1]) + TextOfField(fields[|fields| - 1])
  }

  /** The number of bytes that UTF-8 gives a character. */
  function Width(c: char): nat {
    if c < '\U{80}' then 1 else if c < '\U{0800}' then 2 else if c < '\U{10000}' then 3 else 4
  }

  function Bytes(text: seq<Tagged>): nat {
    if text == [] then 0 else Bytes(text[..|text| - 1]) + Width(text[|text| - 1].c)
  }

  function Min(a: int, b: int): int {
    if a <= b then a else b
  }

  function Max(a: int, b: int): int {
    if a <= b then b else a
  }

  /** Positions `[a, b)` of a sequence, cut to the positions it has. */
  function Cut<T>(t: seq<T>, a: nat, b: nat): seq<T>
    requires a <= b
  {
    t[Min(a, |t|)..Min(b, |t|)]
  }

  // ----- The slicing loop -------------------------------------------------------------------

  lemma CutConcat<T>(t: seq<T>, u: seq<T>, a: nat, b: nat)
    requires a <= b
    ensures Cut(t + u, a, b) == Cut(t, a, b) + Cut(u, Max(0, a - |t|), Max(0, b - |t|))
  {
  }

  lemma TextOfFieldSnoc(f: WordField, p: Piece)
    ensures TextOfField(f + [p]) == TextOfField(f) + TextOfPiece(p)
  {
    assert (f + [p])[..|f|] == f;
  }

  lemma TextSnoc(fields: seq<WordField>, f: WordField)
    ensures Text(fields + [f]) == Text(fields) + TextOfField(f)
  {
    assert (fields + [f])[..|fields|] == fields;
  }

  function SubPiece(p: Piece, from: nat, count: nat): (r: Piece)
    requires from + count <= |p.s|
    ensures TextOfPiece(r) == TextOfPiece(p)[from..from + count]
  {
    match p
    case Unsplittable(s) => Unsplittable(s[from..from + count])
    case Splittable(s) => Splittable(s[from..from + count])
  }

  function LeftOf(index: nat, end: nat, passed: nat): nat {
    Max(0, end - Max(index, passed))
  }

  /** `out` is the slice of the text seen so far; `left` characters are still to be copied,
      and `dist` more are to be passed before that. */
  ghost predicate Slicing(out: seq<Tagged>, seen: seq<Tagged>, index: nat, end: nat, dist: int, left: int)
    requires index <= end
  {
    && out == Cut(seen, index, end)
    && left == LeftOf(index, end, |seen|)
    && (left > 0 ==> dist == Max(0, index - |seen|))
  }

  lemma SkipKeeps(out: seq<Tagged>, seen: seq<Tagged>, u: seq<Tagged>, index: nat, end: nat, dist: int, left: int)
    requires index <= end && left > 0 && Slicing(out, seen, index, end, dist, left) && dist >= |u|
    ensures Slicing(out, seen + u, index, end, dist - |u|, left)
  {
    CutConcat(seen, u, index, end);
  }

  lemma TakeKeeps(out: seq<Tagged>, seen: seq<Tagged>, u: seq<Tagged>, index: nat, end: nat, dist: int, left: int)
    requires index <= end && left > 0 && Slicing(out, seen, index, end, dist, left) && dist < |u|
    ensures var taken := Min(left, |u| - dist);
            Slicing(out + u[dist..dist + taken], seen + u, index, end, 0, left - taken)
  {
    CutConcat(seen, u, index, end);
  }

  lemma DoneKeeps(out: seq<Tagged>, seen: seq<Tagged>, u: seq<Tagged>, index: nat, end: nat, dist: int, dist': int)
    requires index <= end && Slicing(out, seen, index, end, dist, 0)
    ensures Slicing(out, seen + u, index, end, dist', 0)
  {
    CutConcat(seen, u, index, end);
  }

  /** The state of the slicing loop in front of piece `j` of a field; `passed` is the text in
      front of the field and `out` what the slice took from it. */
  ghost predicate InField(out: seq<Tagged>, pieces: WordField, passed: seq<Tagged>, f: WordField, j: nat,
                          index: nat, end: nat, dist: int, left: int)
    requires index <= end && j <= |f|
  {
    Slicing(out + TextOfField(pieces), passed + TextOfField(f[..j]), index, end, dist, left)
  }

  lemma NextPiece(passed: seq<Tagged>, f: WordField, j: nat)
    requires j < |f|
    ensures passed + TextOfField(f[..j + 1]) == passed + TextOfField(f[..j]) + TextOfPiece(f[j])
  {
    TextOfFieldSnoc(f[..j], f[j]);
    assert f[..j + 1] == f[..j] + [f[j]];
  }

  lemma SkipPiece(out: seq<Tagged>, pieces: WordField, passed: seq<Tagged>, f: WordField, j: nat,
                  index: nat, end: nat, dist: int, left: int)
    requires index <= end && j < |f| && InField(out, pieces, passed, f, j, index, end, dist, left)
    requires left > 0 && dist >= |f[j].s|
    ensures InField(out, pieces, passed, f, j + 1, index, end, dist - |f[j].s|, left)
  {
    hide TextOfField, Slicing;
    NextPiece(passed, f, j);
    SkipKeeps(out + TextOfField(pieces), passed + TextOfField(f[..j]), TextOfPiece(f[j]), index, end, dist, left);
  }

  lemma TakePiece(out: seq<Tagged>, pieces: WordField, passed: seq<Tagged>, f: WordField, j: nat,
                  index: nat, end: nat, dist: nat, left: int)
    requires index <= end && j < |f| && InField(out, pieces, passed, f, j, index, end, dist, left)
    requires left > 0 && dist < |f[j].s|
    ensures var taken := Min(left, |f[j].s| - dist);
            InField(out, pieces + [SubPiece(f[j], dist, taken)], passed, f, j + 1, index, end, 0, left - taken)
  {
    hide TextOfField, Slicing;
    var taken := Min(left, |f[j].s| - dist);
    var newPiece := SubPiece(f[j], dist, taken);
    NextPiece(passed, f, j);
    TakeKeeps(out + TextOfField(pieces), passed + TextOfField(f[..j]), TextOfPiece(f[j]), index, end, dist, left);
    TextOfFieldSnoc(pieces, newPiece);
    assert out + TextOfField(pieces + [newPiece]) == out + TextOfField(pieces) + TextOfPiece(newPiece);
  }

  /** Once the slice is complete the rest of the field adds nothing to it. */
  lemma {:induction false} DonePieces(out: seq<Tagged>, pieces: WordField, passed: seq<Tagged>, f: WordField,
                                      j: nat, index: nat, end: nat, dist: int)
    requires index <= end && j <= |f| && InField(out, pieces, passed, f, j, index, end, dist, 0)
    ensures InField(out, pieces, passed, f, |f|, index, end, dist, 0)
    decreases |f| - j
  {
    hide TextOfField, Slicing;
    if j < |f| {
      NextPiece(passed, f, j);
      DoneKeeps(out + TextOfField(pieces), passed + TextOfField(f[..j]), TextOfPiece(f[j]), index, end, dist, dist);
      DonePieces(out, pieces, passed, f, j + 1, index, end, dist);
    }
  }

  ghost predicate NoEmptyPiece(f: WordField) { forall i :: 0 <= i < |f| ==> f[i].s != "" }

  ghost predicate NoEmptyField(fields: seq<WordField>) {
    forall i :: 0 <= i < |fields| ==> fields[i] != [] && NoEmptyPiece(fields[i])
  }

  method SliceField(f: WordField, ghost out: seq<Tagged>, ghost passed: seq<Tagged>, ghost index: nat,
                    ghost end: nat, distIn: nat, leftIn: nat)
    returns (pieces: WordField, dist: nat, left: nat)
    requires index <= end && Slicing(out, passed, index, end, distIn, leftIn)
    ensures InField(out, pieces, passed, f, |f|, index, end, dist, left)
    ensures NoEmptyPiece(pieces)
  {
    hide Slicing, TextOfPiece;
    pieces, dist, left := [], distIn, leftIn;
    assert passed + TextOfField(f[..0]) == passed && out + TextOfField(pieces) == out;
    for j := 0 to |f|
      invariant InField(out, pieces, passed, f, j, index, end, dist, left)
      invariant NoEmptyPiece(pieces)
    {
      if left == 0 {
        DonePieces(out, pieces, passed, f, j, index, end, dist);
        return;
      }
      var pieceCharCount := |f[j].s|;
      if dist >= pieceCharCount {
        SkipPiece(out, pieces, passed, f, j, index, end, dist, left);
        dist := dist - pieceCharCount;
        continue;
      }
      var lenFromThisPiece := Min(left, pieceCharCount - dist);
      TakePiece(out, pieces, passed, f, j, index, end, dist, left);
      pieces := pieces + [SubPiece(f[j], dist, lenFromThisPiece)];
      left := left - lenFromThisPiece;
      dist := 0;
    }
  }

  /** `r` is positions `[index, end)` of `v`: elements of an array, characters of a string
      with their tags. No empty field or piece appears in a string slice. */
  ghost predicate IsSlice(v: Value, index: nat, end: nat, r: Value)
    requires index <= end
  {
    && r.concatenate == v.concatenate && r.kind == v.kind && r.undefined == v.undefined
    && if v.kind.SlicesChars() then
         && Text(r.fields) == Cut(Text(v.fields), index, end)
         && NoEmptyField(r.fields)
       else r.fields == Cut(v.fields, index, end)
  }

  lemma NextField(fields: seq<WordField>, all: seq<WordField>, i: nat, pieces: WordField, index: nat, end: nat,
                  dist: int, left: int)
    requires index <= end && i < |all|
    requires InField(Text(fields), pieces, Text(all[..i]), all[i], |all[i]|, index, end, dist, left)
    ensures Slicing(Text(if pieces == [] then fields else fields + [pieces]), Text(all[..i + 1]), index, end, dist, left)
  {
    TextSnoc(all[..i], all[i]);
    assert all[..i + 1] == all[..i] + [all[i]];
    assert all[i][..|all[i]|] == all[i];
    TextSnoc(fields, pieces);
    assert Text(fields) + TextOfField([]) == Text(fields);
  }

  /** `end - index` must not underflow, nor `fields.len() - index` for elements. */
  method PolymorphicSubslice(v: Value, index: nat, end: nat) returns (r: Value)
    requires index <= end
    requires !v.kind.SlicesChars() ==> index <= |v.fields|
    ensures IsSlice(v, index, end, r)
  {
    var len := end - index;
    if !v.kind.SlicesChars() {
      var actualLen := Min(len, |v.fields| - index);
      return v.(fields := v.fields[index..index + actualLen]);
    }
    r := SliceText(v, index, end);
  }

  method SliceText(v: Value, index: nat, end: nat) returns (r: Value)
    requires index <= end && v.kind.SlicesChars()
    ensures IsSlice(v, index, end, r)
  {
    hide InField, TextOfField, NoEmptyPiece;
    var fields: seq<WordField> := [];
    var distToSlice, left := index, end - index;
    for i := 0 to |v.fields|
      invariant distToSlice >= 0 && left >= 0
      invariant Slicing(Text(fields), Text(v.fields[..i]), index, end, distToSlice, left)
      invariant NoEmptyField(fields)
    {
      var pieces;
      pieces, distToSlice, left := SliceField(v.fields[i], Text(fields), Text(v.fields[..i]), index, end,
                                              distToSlice, left);
      NextField(fields, v.fields, i, pieces, index, end, distToSlice, left);
      if pieces != [] {
        fields := fields + [pieces];
      }
    }
    assert v.fields[..|v.fields|] == v.fields;
    r := v.(fields := fields);
  }

  // ----- Offset and length ------------------------------------------------------------------

  /** An indexed array comes with one ascending subscript for each field. */
  ghost predicate Valid(v: Value) {
    && (v.kind.IndexedArray? ==>
          && |v.kind.subscripts| == |v.fields|
          && forall i, j :: 0 <= i < j < |v.fields| ==> v.kind.subscripts[i] < v.kind.subscripts[j])
    && SliceLen(v) <= I64_MAX
  }

  /** A string counts bytes here, although the slice itself walks characters. */
  function SliceLen(v: Value): nat {
    if v.kind.SlicesChars() then Bytes(Text(v.fields)) else |v.fields|
  }

  function OffsetSpace(kind: Kind, len: int): int {
    match kind
    case IndexedArray(subscripts) =>
      if subscripts == [] then 0 else Min(Min(subscripts[|subscripts| - 1], I64_MAX) + 1, I64_MAX)
    case _ => len
  }

  function OffsetLimit(kind: Kind, len: int): int {
    if kind.IndexedArray? then OffsetSpace(kind, len) else len + 1
  }

  /** The number of leading subscripts below the offset. */
  function PartitionPoint(subscripts: seq<nat>, offset: int): (n: nat)
    ensures n <= |subscripts|
  {
    if subscripts != [] && subscripts[0] <= I64_MAX && subscripts[0] < offset
    then 1 + PartitionPoint(subscripts[1..], offset)
    else 0
  }

  function OffsetToPosition(kind: Kind, offset: int): int {
    if kind.IndexedArray? then PartitionPoint(kind.subscripts, offset) else offset
  }

  predicate IsUndefined(v: Value) {
    v.undefined || v.fields == []
  }

  /** For `$@` and `$*` the name of the shell goes in front of what is sliced. */
  function Sliced(v: Value, shellName: Option<string>): Value {
    match shellName
    case None => v
    case Some(name) => v.(fields := [[Splittable(name)]] + v.fields)
  }

  /** `shellName` is there if the parameter is `$@` or `$*`. */
  method Substring(v: Value, shellName: Option<string>, offset: Result<I64, Error>, length: Option<Result<I64, Error>>)
    returns (r: Result<Value, Error>)
    requires Valid(Sliced(v, shellName))
    ensures match Bounds(Sliced(v, shellName), offset, length)
            case Err(e) => r == Err(e)
            case Ok((index, end)) => r.Ok? && IsSlice(Sliced(v, shellName), index, end, r.value)
  {
    var expanded := v;
    if shellName.Some? {
      expanded := expanded.(fields := [[Splittable(shellName.value)]] + expanded.fields);
    }
    var bounds := Positions(expanded, offset, length);
    if bounds.Err? {
      return Err(bounds.error);
    }
    var slice := PolymorphicSubslice(expanded, bounds.value.0, bounds.value.1);
    r := Ok(slice);
  }

  /** The offset is checked before the length is looked at. */
  method Positions(v: Value, offset: Result<I64, Error>, length: Option<Result<I64, Error>>)
    returns (r: Result<(nat, nat), Error>)
    requires Valid(v)
    ensures r == Bounds(v, offset, length)
  {
    var len := SliceLen(v);
    if IsUndefined(v) {
      return Ok((0, 0));
    }
    if offset.Err? {
      return Err(offset.error);
    }
    var expandedOffset: int := offset.value;
    if expandedOffset < 0 {
      expandedOffset := expandedOffset + OffsetSpace(v.kind, len);
    }
    if expandedOffset < 0 || expandedOffset >= OffsetLimit(v.kind, len) {
      return Ok((0, 0));
    }
    expandedOffset := OffsetToPosition(v.kind, expandedOffset);
    var endOffset: int := len;
    if length.Some? {
      if length.value.Err? {
        return Err(length.value.error);
      }
      var expandedLength: int := length.value.value;
      if expandedLength < 0 {
        endOffset := len + expandedLength;
        if v.kind.IndexedArray? || v.kind.ElementList? || endOffset < expandedOffset {
          return Err(NegativeLength);
        }
      } else {
        endOffset := Min(Min(expandedOffset + expandedLength, I64_MAX), len);
      }
    }
    r := Ok((expandedOffset, endOffset));
  }

  /** The positions that offset and length select. That the second is never below the first,
      nor the first beyond the last element, is what keeps the slice from underflowing. */
  function Bounds(v: Value, offset: Result<I64, Error>, length: Option<Result<I64, Error>>)
    : (b: Result<(nat, nat), Error>)
    requires Valid(v)
    ensures b.Ok? ==> b.value.0 <= b.value.1 <= SliceLen(v)
  {
    if IsUndefined(v) then Ok((0, 0))
    else if offset.Err? then Err(offset.error)
    else
      var len := SliceLen(v);
      var o := if offset.value < 0 then offset.value + OffsetSpace(v.kind, len) else offset.value;
      if o < 0 || o >= OffsetLimit(v.kind, len) then Ok((0, 0))
      else
        var position := OffsetToPosition(v.kind, o);
        match EndOf(position, len, length, v.kind.SlicesChars())
        case Err(e) => Err(e)
        case Ok(end) => Ok((position, end))
  }

  function EndOf(position: nat, len: nat, length: Option<Result<I64, Error>>, negativeLengthAllowed: bool)
    : (end: Result<nat, Error>)
    requires position <= len <= I64_MAX
    ensures end.Ok? ==> position <= end.value <= len
  {
    if length.None? then Ok(len)
    else if length.value.Err? then Err(length.value.error)
    else if length.value.value >= 0 then Ok(Min(Min(position + length.value.value, I64_MAX), len))
    else if !negativeLengthAllowed || len + length.value.value < position then Err(NegativeLength)
    else Ok(len + length.value.value)
  }

  // ----- What the slice is ------------------------------------------------------------------

  function Take<T>(t: seq<T>, n: nat): seq<T> {
    if n <= |t| then t[..n] else t
  }

  /** The slice of a list addressed by position. A negative offset counts from the end; an
      offset outside the list selects nothing; a negative length, where it is allowed, says
      how far from the end the slice stops. */
  function ListSlice<T>(t: seq<T>, offset: int, length: Option<int>, negativeLengthAllowed: bool)
    : Result<seq<T>, Error>
  {
    var start := if offset < 0 then offset + |t| else offset;
    if start < 0 || start > |t| then Ok([])
    else Tail(t, start, length, negativeLengthAllowed)
  }

  function AtLeast<T>(subscripts: seq<nat>, fields: seq<T>, offset: int): seq<T>
    requires |subscripts| == |fields|
  {
    if fields == [] then []
    else (if subscripts[0] >= offset then [fields[0]] else []) + AtLeast(subscripts[1..], fields[1..], offset)
  }

  /** The slice of a sparse array: the first `length` elements whose subscript is at least the
      offset. A negative offset counts from one past the highest subscript. */
  function SparseSlice<T>(subscripts: seq<nat>, fields: seq<T>, offset: int, length: Option<int>)
    : Result<seq<T>, Error>
    requires |subscripts| == |fields| > 0
  {
    var highest := subscripts[|subscripts| - 1];
    var start := if offset < 0 then offset + highest + 1 else offset;
    if start < 0 || start > highest then Ok([])
    else if length.None? then Ok(AtLeast(subscripts, fields, start))
    else if length.value >= 0 then Ok(Take(AtLeast(subscripts, fields, start), length.value))
    else Err(NegativeLength)
  }

  function Given(length: Option<I64>): Option<Result<I64, Error>> {
    if length.None? then None else Some(Ok(length.value))
  }

  function Known(length: Option<I64>): Option<int> {
    if length.None? then None else Some(length.value)
  }

  /** What the positions select from the list `t` of characters or elements. */
  function Selected<T>(b: Result<(nat, nat), Error>, t: seq<T>): Result<seq<T>, Error>
    requires b.Ok? ==> b.value.0 <= b.value.1
  {
    if b.Err? then Err(b.error) else Ok(Cut(t, b.value.0, b.value.1))
  }

  ghost predicate AllAscii(text: seq<Tagged>) {
    forall i :: 0 <= i < |text| ==> text[i].c < '\U{80}'
  }

  lemma {:induction false} BytesAtLeast(text: seq<Tagged>)
    ensures Bytes(text) >= |text|
    ensures AllAscii(text) <==> Bytes(text) == |text|
  {
    if text != [] {
      BytesAtLeast(text[..|text| - 1]);
      assert text == text[..|text| - 1] + [text[|text| - 1]];
    }
  }

  /** The elements from `start` on, cut to a length. */
  function Tail<T>(t: seq<T>, start: nat, length: Option<int>, negativeLengthAllowed: bool): Result<seq<T>, Error>
    requires start <= |t|
  {
    if length.None? then Ok(t[start..])
    else if length.value >= 0 then Ok(Take(t[start..], length.value))
    else if !negativeLengthAllowed || |t| + length.value < start then Err(NegativeLength)
    else Ok(t[start..|t| + length.value])
  }

  lemma EndSelectsTail<T>(t: seq<T>, start: nat, length: Option<I64>, negativeLengthAllowed: bool)
    requires start <= |t| <= I64_MAX
    ensures match EndOf(start, |t|, Given(length), negativeLengthAllowed)
            case Err(e) => Tail(t, start, Known(length), negativeLengthAllowed) == Err(e)
            case Ok(end) => Tail(t, start, Known(length), negativeLengthAllowed) == Ok(Cut(t, start, end))
  {
    assert Cut(t, start, |t|) == t[start..];
    if length.Some? && length.value >= 0 {
      assert Cut(t, start, Min(Min(start + length.value, I64_MAX), |t|)) == Take(t[start..], length.value);
    }
  }

  /** A defined string of single-byte characters is sliced as the list of its characters. */
  lemma AsciiStringLaw(v: Value, offset: I64, length: Option<I64>)
    requires Valid(v) && v.kind.SlicesChars() && !IsUndefined(v) && AllAscii(Text(v.fields))
    ensures Selected(Bounds(v, Ok(offset), Given(length)), Text(v.fields))
            == ListSlice(Text(v.fields), offset, Known(length), true)
  {
    BytesAtLeast(Text(v.fields));
    var start := if offset < 0 then offset + |Text(v.fields)| else offset;
    if 0 <= start <= |Text(v.fields)| {
      EndSelectsTail(Text(v.fields), start, length, true);
    }
  }

  /** `${x: -1}` of a string that is not all single bytes. */
  lemma LastCharacterMissed(v: Value)
    requires Valid(v) && v.kind.SlicesChars() && !IsUndefined(v) && !AllAscii(Text(v.fields))
    ensures var minusOne: I64 := -1;
            var none: Option<I64> := None;
            Selected(Bounds(v, Ok(minusOne), Given(none)), Text(v.fields))
            != ListSlice(Text(v.fields), minusOne, Known(none), true)
  {
    var t := Text(v.fields);
    BytesAtLeast(t);
    hide Text;
    var minusOne: I64 := -1;
    var none: Option<I64> := None;
    assert Selected(Bounds(v, Ok(minusOne), Given(none)), t).value == [];
    assert ListSlice(t, minusOne, Known(none), true) == Ok(t[|t| - 1..]);
  }

  /** The law holds of a string for every offset and length exactly when its characters are
      all single bytes: lengths are counted in bytes, so `${x: -1}` misses the last character
      of any other string. */
  lemma StringLawIffAscii(v: Value)
    requires Valid(v) && v.kind.SlicesChars() && !IsUndefined(v)
    ensures (forall offset: I64, length: Option<I64> ::
               Selected(Bounds(v, Ok(offset), Given(length)), Text(v.fields))
               == ListSlice(Text(v.fields), offset, Known(length), true))
            <==> AllAscii(Text(v.fields))
  {
    hide Bounds, Selected, ListSlice, AllAscii, Valid, Text;
    var t := Text(v.fields);
    if AllAscii(t) {
      forall offset: I64, length: Option<I64>
        ensures Selected(Bounds(v, Ok(offset), Given(length)), t) == ListSlice(t, offset, Known(length), true)
      {
        AsciiStringLaw(v, offset, length);
      }
    } else {
      LastCharacterMissed(v);
    }
  }

  /** Elements without subscripts are sliced by position. */
  lemma ElementListLaw(v: Value, offset: I64, length: Option<I64>)
    requires Valid(v) && v.kind.ElementList? && !IsUndefined(v)
    ensures Selected(Bounds(v, Ok(offset), Given(length)), v.fields)
            == ListSlice(v.fields, offset, Known(length), false)
  {
    var start := if offset < 0 then offset + |v.fields| else offset;
    if 0 <= start <= |v.fields| {
      EndSelectsTail(v.fields, start, length, false);
    }
  }

  function Positional(params: seq<WordField>, concatenate: bool): Value {
    Value(params, concatenate, ElementList, false)
  }

  /** The positional parameters are sliced by their numbers: offset 0, and the negative one that
      reaches as far, begin with the name of the shell; any other offset from 1 on begins with the
      parameter of that number, and any other negative one counts back from the last parameter. */
  lemma PositionalLaw(params: seq<WordField>, concatenate: bool, name: string, offset: I64, length: Option<I64>)
    requires |params| < I64_MAX
    ensures var v := Sliced(Positional(params, concatenate), Some(name));
            Selected(Bounds(v, Ok(offset), Given(length)), v.fields)
            == if offset == 0 || offset == -(|params| + 1) then
                 ListSlice([[Splittable(name)]] + params, 0, Known(length), false)
               else ListSlice(params, if offset > 0 then offset - 1 else offset, Known(length), false)
  {
    var v := Sliced(Positional(params, concatenate), Some(name));
    ElementListLaw(v, offset, length);
    var start := if offset < 0 then offset + |v.fields| else offset;
    if 1 <= start <= |v.fields| {
      assert v.fields[start..] == params[start - 1..];
    }
  }

  lemma {:induction false} AtLeastIsSuffix<T>(subscripts: seq<nat>, fields: seq<T>, offset: int)
    requires |subscripts| == |fields| && offset <= I64_MAX
    requires forall i, j :: 0 <= i < j < |fields| ==> subscripts[i] < subscripts[j]
    ensures AtLeast(subscripts, fields, offset) == fields[PartitionPoint(subscripts, offset)..]
  {
    if fields != [] {
      AtLeastIsSuffix(subscripts[1..], fields[1..], offset);
      if subscripts[0] >= offset {
        assert subscripts[1..] != [] ==> subscripts[1..][0] >= offset;
        assert [fields[0]] + fields[1..] == fields;
      }
    }
  }

  /** A sparse array is sliced by subscript, unless its highest subscript is the largest
      64-bit integer. */
  lemma SparseArrayLaw(v: Value, offset: I64, length: Option<I64>)
    requires Valid(v) && v.kind.IndexedArray? && !IsUndefined(v)
    requires v.kind.subscripts[|v.fields| - 1] < I64_MAX
    ensures Selected(Bounds(v, Ok(offset), Given(length)), v.fields)
            == SparseSlice(v.kind.subscripts, v.fields, offset, Known(length))
  {
    var highest := v.kind.subscripts[|v.fields| - 1];
    var start := if offset < 0 then offset + highest + 1 else offset;
    if 0 <= start <= highest {
      AtLeastIsSuffix(v.kind.subscripts, v.fields, start);
      EndSelectsTail(v.fields, PartitionPoint(v.kind.subscripts, start), length, false);
    }
  }

  /** The offset that names the largest subscript of all selects nothing. */
  lemma LargestMissed(v: Value)
    requires Valid(v) && v.kind.IndexedArray? && !IsUndefined(v)
    requires v.kind.subscripts[|v.fields| - 1] == I64_MAX
    ensures var largest: I64 := I64_MAX;
            var none: Option<I64> := None;
            Selected(Bounds(v, Ok(largest), Given(none)), v.fields)
            != SparseSlice(v.kind.subscripts, v.fields, largest, Known(none))
  {
    var largest: I64 := I64_MAX;
    var none: Option<I64> := None;
    assert Selected(Bounds(v, Ok(largest), Given(none)), v.fields) == Ok([]);
    LastAtLeast(v.kind.subscripts, v.fields, largest);
    assert SparseSlice(v.kind.subscripts, v.fields, largest, Known(none)) != Ok([]);
  }

  /** With the largest subscript in use the end of the subscript space is not representable,
      and an offset that names that element selects nothing. */
  lemma SparseLawIffBelowMax(v: Value)
    requires Valid(v) && v.kind.IndexedArray? && !IsUndefined(v)
    requires v.kind.subscripts[|v.fields| - 1] <= I64_MAX
    ensures (forall offset: I64, length: Option<I64> ::
               Selected(Bounds(v, Ok(offset), Given(length)), v.fields)
               == SparseSlice(v.kind.subscripts, v.fields, offset, Known(length)))
            <==> v.kind.subscripts[|v.fields| - 1] < I64_MAX
  {
    hide Bounds, Selected, SparseSlice;
    if v.kind.subscripts[|v.fields| - 1] < I64_MAX {
      forall offset: I64, length: Option<I64>
        ensures Selected(Bounds(v, Ok(offset), Given(length)), v.fields)
                == SparseSlice(v.kind.subscripts, v.fields, offset, Known(length))
      {
        SparseArrayLaw(v, offset, length);
      }
    } else {
      LargestMissed(v);
    }
  }

  lemma {:induction false} LastAtLeast<T>(subscripts: seq<nat>, fields: seq<T>, offset: int)
    requires |subscripts| == |fields| > 0 && subscripts[|fields| - 1] >= offset
    ensures AtLeast(subscripts, fields, offset) != []
  {
    if |fields| > 1 {
      LastAtLeast(subscripts[1..], fields[1..], offset);
    }
  }
}
