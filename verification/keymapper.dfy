/** `Model.convertLocalKeyToServerKey`: a camelCase field name becomes the
    snake_case key used in payloads, as
    `key.split(/\.?(?=[A-Z])/).join('_').toLowerCase()`.
    Characters are treated as ASCII: the regular expression's `[A-Z]` is
    ASCII-only, and only `A`-`Z` are lower-cased. */
module KeyMapper {
  import opened Results

  predicate IsUpper(c: char) {
    'A' <= c <= 'Z'
  }

  function LowerChar(c: char): (d: char)
    ensures !IsUpper(d)
    ensures !IsUpper(c) ==> d == c
  {
    if IsUpper(c) then (c as int + 32) as char else c
  }

  /** `String.prototype.toLowerCase` on ASCII. */
  function ToLower(s: string): string {
    seq(|s|, i requires 0 <= i < |s| => LowerChar(s[i]))
  }

  /** The separator `\.?(?=[A-Z])` tried at position `q`: the end of the
      match, if it matches. The optional dot is tried first (greedy) and
      then skipped. */
  function SeparatorEnd(s: string, q: nat): Option<nat> {
    if q + 1 < |s| && s[q] == '.' && IsUpper(s[q + 1]) then Some(q + 1)
    else if q < |s| && IsUpper(s[q]) then Some(q)
    else None
  }

  /** The loop of `String.prototype.split` with a regular expression
      separator: `p` is where the current piece starts, `q` the position the
      separator is tried at next. An empty match ending where the current
      piece starts does not split. */
  function SplitFrom(s: string, p: nat, q: nat): (pieces: seq<string>)
    requires p <= q <= |s|
    ensures |pieces| >= 1
    decreases |s| - q, q - p
  {
    if q == |s| then [s[p..]]
    else match SeparatorEnd(s, q)
      case None => SplitFrom(s, p, q + 1)
      case Some(e) =>
        if e == p then SplitFrom(s, p, q + 1)
        else [s[p..q]] + SplitFrom(s, e, e)
  }

  /** `Array.prototype.join('_')`. */
  function Join(pieces: seq<string>): string {
    if |pieces| == 0 then ""
    else if |pieces| == 1 then pieces[0]
    else pieces[0] + "_" + Join(pieces[1..])
  }

  /** The payload key of field `key`. */
  function ServerKey(key: string): (r: string)
    ensures forall i :: 0 <= i < |r| ==> !IsUpper(r[i])
  {
    ToLower(Join(SplitFrom(key, 0, 0)))
  }

  // The same mapping stated one character at a time.

  /** Whether `s[i]` is a dot the separator consumes. */
  predicate DotBeforeUpper(s: string, i: nat) {
    i + 1 < |s| && s[i] == '.' && IsUpper(s[i + 1])
  }

  /** What character `i` of a field name turns into: an upper-case letter
      after the first position gets an underscore before it, a dot directly
      before an upper-case letter disappears, and every character is
      lower-cased. */
  function CharPiece(s: string, i: nat): string
    requires i < |s|
  {
    (if i > 0 && IsUpper(s[i]) then "_" else "")
    + (if DotBeforeUpper(s, i) then "" else [LowerChar(s[i])])
  }

  /** The pieces of characters `i..` of `s`, concatenated. */
  function MappedFrom(s: string, i: nat): string
    decreases |s| - i
  {
    if i >= |s| then "" else CharPiece(s, i) + MappedFrom(s, i + 1)
  }

  /** What is still to come of the mapped key once the split loop stands at
      `(p, q)`: when `q` starts a piece, the underscore before it has already
      been written by `join`. */
  function Remaining(s: string, p: nat, q: nat): string
    requires q <= |s|
  {
    if q == p && q < |s| then
      (if DotBeforeUpper(s, q) then "" else [LowerChar(s[q])]) + MappedFrom(s, q + 1)
    else MappedFrom(s, q)
  }

  lemma ToLowerAppend(a: string, b: string)
    ensures ToLower(a + b) == ToLower(a) + ToLower(b)
  {
  }

  lemma JoinCons(head: string, rest: seq<string>)
    requires |rest| >= 1
    ensures Join([head] + rest) == head + "_" + Join(rest)
  {
    assert ([head] + rest)[1..] == rest;
  }

  lemma ToLowerExtend(s: string, p: nat, q: nat)
    requires p <= q < |s|
    ensures ToLower(s[p..q + 1]) == ToLower(s[p..q]) + [LowerChar(s[q])]
  {
    assert s[p..q + 1] == s[p..q] + [s[q]];
    ToLowerAppend(s[p..q], [s[q]]);
  }

  lemma RemainingNoSplit(s: string, p: nat, q: nat)
    requires p <= q < |s|
    requires SeparatorEnd(s, q).None? || SeparatorEnd(s, q) == Some(p)
    ensures Remaining(s, p, q) == [LowerChar(s[q])] + Remaining(s, p, q + 1)
  {
    assert !DotBeforeUpper(s, q);
    if q > p {
      assert !IsUpper(s[q]);
      assert CharPiece(s, q) == [LowerChar(s[q])];
    }
  }

  /** One step of the loop that does not split: character `q` joins the
      current piece. */
  lemma NoSplitStep(s: string, p: nat, q: nat)
    requires p <= q < |s|
    requires SeparatorEnd(s, q).None? || SeparatorEnd(s, q) == Some(p)
    ensures ToLower(s[p..q + 1]) + Remaining(s, p, q + 1) == ToLower(s[p..q]) + Remaining(s, p, q)
  {
    var head, c, rest := ToLower(s[p..q]), [LowerChar(s[q])], Remaining(s, p, q + 1);
    ToLowerExtend(s, p, q);
    RemainingNoSplit(s, p, q);
    Regroup(head, c, rest);
  }

  lemma Regroup(a: string, b: string, c: string)
    ensures (a + b) + c == a + (b + c)
  {
  }

  /** A capital after the first position: `join` writes an underscore
      before it, and it is lower-cased. */
  lemma MappedAtUpper(s: string, i: nat)
    requires 0 < i < |s| && IsUpper(s[i])
    ensures MappedFrom(s, i) == "_" + Remaining(s, i, i)
    ensures Remaining(s, i, i) == [LowerChar(s[i])] + MappedFrom(s, i + 1)
  {
    var c, rest := [LowerChar(s[i])], MappedFrom(s, i + 1);
    PieceAtUpper(s, i);
    assert MappedFrom(s, i) == ("_" + c) + rest;
    assert ("_" + c) + rest == "_" + (c + rest);
  }

  lemma PieceAtUpper(s: string, i: nat)
    requires 0 < i < |s| && IsUpper(s[i])
    ensures !DotBeforeUpper(s, i)
    ensures CharPiece(s, i) == "_" + [LowerChar(s[i])]
  {
  }

  /** A dot before a capital contributes nothing, whether or not it starts
      the current piece. */
  lemma DotSkipped(s: string, p: nat, q: nat)
    requires p <= q && DotBeforeUpper(s, q)
    ensures Remaining(s, p, q) == MappedFrom(s, q + 1)
  {
    if q != p {
      DotPiece(s, q);
    } else {
      assert "" + MappedFrom(s, q + 1) == MappedFrom(s, q + 1);
    }
  }

  lemma DotPiece(s: string, q: nat)
    requires 0 < q && DotBeforeUpper(s, q)
    ensures MappedFrom(s, q) == MappedFrom(s, q + 1)
  {
    assert s[q] == '.' && !IsUpper(s[q]);
    assert CharPiece(s, q) == "" + "";
    assert MappedFrom(s, q) == CharPiece(s, q) + MappedFrom(s, q + 1);
  }

  /** One step of the loop that splits: the separator ending at `e` closes
      the current piece, and `join` writes the underscore in its place. */
  lemma SplitStep(s: string, p: nat, q: nat, e: nat)
    requires p <= q < |s|
    requires SeparatorEnd(s, q) == Some(e) && e != p
    ensures e < |s|
    ensures "_" + Remaining(s, e, e) == Remaining(s, p, q)
  {
    if DotBeforeUpper(s, q) {
      assert e == q + 1;
      DotSkipped(s, p, q);
      MappedAtUpper(s, e);
    } else {
      assert e == q && IsUpper(s[q]) && q != p;
      assert Remaining(s, p, q) == MappedFrom(s, q);
      MappedAtUpper(s, q);
    }
  }

  lemma JoinSplitPiece(head: string, rest: seq<string>, tail: string)
    requires |rest| >= 1
    requires ToLower(Join(rest)) == tail
    ensures ToLower(Join([head] + rest)) == ToLower(head) + ("_" + tail)
  {
    JoinCons(head, rest);
    ToLowerAppend(head + "_", Join(rest));
    ToLowerAppend(head, "_");
  }

  lemma {:induction false} SplitLoopMatchesPieces(s: string, p: nat, q: nat)
    requires p <= q <= |s|
    ensures ToLower(Join(SplitFrom(s, p, q))) == ToLower(s[p..q]) + Remaining(s, p, q)
    decreases |s| - q, q - p, 1
  {
    if q == |s| {
      assert s[p..] == s[p..q];
    } else if SeparatorEnd(s, q).None? || SeparatorEnd(s, q) == Some(p) {
      NoSplitCase(s, p, q);
    } else {
      SplitCase(s, p, q);
    }
  }

  lemma {:induction false} NoSplitCase(s: string, p: nat, q: nat)
    requires p <= q < |s|
    requires SeparatorEnd(s, q).None? || SeparatorEnd(s, q) == Some(p)
    ensures ToLower(Join(SplitFrom(s, p, q))) == ToLower(s[p..q]) + Remaining(s, p, q)
    decreases |s| - q, q - p, 0
  {
    assert SplitFrom(s, p, q) == SplitFrom(s, p, q + 1);
    SplitLoopMatchesPieces(s, p, q + 1);
    NoSplitStep(s, p, q);
  }

  lemma {:induction false} SplitCase(s: string, p: nat, q: nat)
    requires p <= q < |s|
    requires SeparatorEnd(s, q).Some? && SeparatorEnd(s, q) != Some(p)
    ensures ToLower(Join(SplitFrom(s, p, q))) == ToLower(s[p..q]) + Remaining(s, p, q)
    decreases |s| - q, q - p, 0
  {
    var e := SeparatorEnd(s, q).value;
    SplitStep(s, p, q, e);
    assert SplitFrom(s, p, q) == [s[p..q]] + SplitFrom(s, e, e);
    SplitLoopMatchesPieces(s, e, e);
    assert s[e..e] == [];
    JoinSplitPiece(s[p..q], SplitFrom(s, e, e), Remaining(s, e, e));
  }

  /** The split-and-join pipeline equals the per-character rule. */
  lemma {:induction false} ServerKeyByCharacter(key: string)
    ensures ServerKey(key) == MappedFrom(key, 0)
  {
    SplitLoopMatchesPieces(key, 0, 0);
  }

  lemma {:induction false} MappedFromWithoutUpper(s: string, i: nat)
    requires i <= |s|
    requires forall j :: 0 <= j < |s| ==> !IsUpper(s[j])
    ensures MappedFrom(s, i) == s[i..]
    decreases |s| - i
  {
    if i < |s| {
      MappedFromWithoutUpper(s, i + 1);
      assert s[i..] == [s[i]] + s[i + 1..];
    }
  }

  /** A run of characters that are neither capitals nor dots before one is
      copied as it is. */
  lemma {:induction false} MappedLowerRun(s: string, i: nat, j: nat)
    requires i <= j <= |s|
    requires forall k :: i <= k < j ==> !IsUpper(s[k]) && !DotBeforeUpper(s, k)
    ensures MappedFrom(s, i) == s[i..j] + MappedFrom(s, j)
    decreases j - i
  {
    if i < j {
      var c, run, rest := [s[i]], s[i + 1..j], MappedFrom(s, j);
      MappedLowerRun(s, i + 1, j);
      LowerPiece(s, i);
      assert s[i..j] == c + run;
      Regroup(c, run, rest);
    }
  }

  /** A name made of two words, the second starting with a capital. */
  lemma TwoWords(s: string, i: nat, key: string)
    requires 0 < i < |s| && IsUpper(s[i])
    requires forall k :: 0 <= k < |s| && k != i ==> !IsUpper(s[k]) && s[k] != '.'
    requires key == s[..i] + "_" + [LowerChar(s[i])] + s[i + 1..]
    ensures ServerKey(s) == key
  {
    var head, c, tail := s[..i], [LowerChar(s[i])], s[i + 1..];
    calc {
      ServerKey(s);
    == { ServerKeyByCharacter(s); }
      MappedFrom(s, 0);
    == { MappedLowerRun(s, 0, i); assert s[0..i] == head; }
      head + MappedFrom(s, i);
    == { PieceAtUpper(s, i); }
      head + (("_" + c) + MappedFrom(s, i + 1));
    == { MappedLowerRun(s, i + 1, |s|); assert s[i + 1..|s|] + "" == tail; }
      head + (("_" + c) + tail);
    == { Regroup("_", c, tail); Regroup(head, "_", c + tail); Regroup(head + "_", c, tail); }
      head + "_" + c + tail;
    }
  }

  lemma LowerPiece(s: string, i: nat)
    requires i < |s| && !IsUpper(s[i]) && !DotBeforeUpper(s, i)
    ensures MappedFrom(s, i) == [s[i]] + MappedFrom(s, i + 1)
  {
    assert CharPiece(s, i) == [s[i]];
  }

  /** A name without upper-case letters is its own payload key, dots included. */
  lemma {:induction false} LowerCaseNameUnchanged(key: string)
    requires forall j :: 0 <= j < |key| ==> !IsUpper(key[j])
    ensures ServerKey(key) == key
  {
    ServerKeyByCharacter(key);
    MappedFromWithoutUpper(key, 0);
  }

  /** Mapping a payload key again changes nothing. */
  lemma {:induction false} ServerKeyIdempotent(key: string)
    ensures ServerKey(ServerKey(key)) == ServerKey(key)
  {
    LowerCaseNameUnchanged(ServerKey(key));
  }

  /** Field names of the repository's tests. */
  lemma ServerKeyOfIsValid()
    ensures ServerKey("isValid") == "is_valid"
  {
    TwoWords("isValid", 2, "is_valid");
  }

  lemma ServerKeyOfCustomArray()
    ensures ServerKey("customArray") == "custom_array"
  {
    TwoWords("customArray", 6, "custom_array");
  }

  lemma ServerKeyOfId()
    ensures ServerKey("id") == "id"
  {
    LowerCaseNameUnchanged("id");
  }

  /** Every capital of an acronym starts a piece of its own. */
  lemma ServerKeyOfAcronym()
    ensures ServerKey("userID") == "user_i_d"
  {
    ServerKeyByCharacter("userID");
  }

  /** A dot before a capital is consumed by the separator. */
  lemma ServerKeyOfDottedName()
    ensures ServerKey("a.B") == "a_b"
  {
    ServerKeyByCharacter("a.B");
  }
}
