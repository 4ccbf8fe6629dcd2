/** What the lists of the dashboard compute before drawing: a member's
    avatar initials (script.js, `updateMembersList`) and the newest-first
    order of the notice board (`updateNoticesDisplay`). */
module Display {
  import opened Text
  import opened Records
  import opened Seqs

  /** A piece that has a first letter. */
  predicate NonEmpty(piece: string) {
    piece != []
  }

  /** The first character of every piece; an empty piece contributes
      nothing (its `n[0]` is `undefined`, which `join` writes as ""). So
      there is one letter per non-empty piece, in the pieces' order. */
  function FirstLetters(parts: seq<string>): (r: string)
    ensures |r| <= |parts|
    ensures var kept := Filter(parts, NonEmpty);
            |r| == |kept| && forall k :: 0 <= k < |r| ==> kept[k] != [] && r[k] == kept[k][0]
  {
    if parts == [] then []
    else (if parts[0] == [] then [] else [parts[0][0]]) + FirstLetters(parts[1..])
  }

  /** A member's initials: the name split at spaces, first letters joined. */
  function Initials(name: string): (r: string)
    ensures ' ' !in r
  {
    var parts := Split(name, ' ');
    FirstLettersFrom(parts);
    FirstLetters(parts)
  }

  /** Helper: every initial is the first letter of some piece, so no
      initial is a space when the pieces hold none. */
  lemma {:induction false} FirstLettersFrom(parts: seq<string>)
    requires forall i :: 0 <= i < |parts| ==> ' ' !in parts[i]
    ensures ' ' !in FirstLetters(parts)
  {
    if parts != [] {
      FirstLettersFrom(parts[1..]);
      if parts[0] != [] {
        assert parts[0][0] in parts[0];
      }
    }
  }

  /** A single piece gives its first letter, or nothing when it is empty. */
  lemma FirstLettersOfOne(piece: string)
    ensures FirstLetters([piece]) == if piece == [] then [] else [piece[0]]
  {
    assert [piece][1..] == [];
  }

  /** A name without spaces shows its own first letter. */
  lemma InitialsOfWord(word: string)
    requires word != [] && ' ' !in word
    ensures Initials(word) == [word[0]]
  {
    SplitFree(word, ' ');
  }

  /** A name's initials are those of its part before the first space
      followed by those of the rest. */
  lemma InitialsJoin(first: string, rest: string)
    ensures Initials(first + " " + rest) == Initials(first) + Initials(rest)
  {
    SplitAround(first, rest, ' ');
    assert first + " " + rest == first + [' '] + rest;
    FirstLettersAppend(Split(first, ' '), Split(rest, ' '));
  }

  /** Helper: first letters distribute over concatenation. */
  lemma {:induction false} FirstLettersAppend(a: seq<string>, b: seq<string>)
    ensures FirstLetters(a + b) == FirstLetters(a) + FirstLetters(b)
  {
    if a == [] {
      assert a + b == b;
    } else {
      assert (a + b)[0] == a[0];
      assert (a + b)[1..] == a[1..] + b;
      FirstLettersAppend(a[1..], b);
    }
  }

  /** Newest first: ids are creation times, so larger ids come first. */
  predicate NewestFirst(notices: seq<Notice>) {
    forall i, j :: 0 <= i < j < |notices| ==> notices[i].id >= notices[j].id
  }

  /** The board's `notices.sort((a, b) => b.id - a.id)`, in place: an
      insertion sort that leaves the same notices ordered by descending id. */
  method SortNewestFirst(a: array<Notice>)
    modifies a
    ensures NewestFirst(a[..])
    ensures multiset(a[..]) == multiset(old(a[..]))
  {
    var i := 0;
    while i < a.Length
      invariant 0 <= i <= a.Length
      invariant forall p, q :: 0 <= p < q < i ==> a[p].id >= a[q].id
      invariant multiset(a[..]) == multiset(old(a[..]))
    {
      SinkNewest(a, i);
      i := i + 1;
    }
  }

  /** One insertion step: the notice at `i` moves down past the older
      notices before it, so the first `i + 1` notices are newest first. */
  method SinkNewest(a: array<Notice>, i: int)
    requires 0 <= i < a.Length
    requires forall p, q :: 0 <= p < q < i ==> a[p].id >= a[q].id
    modifies a
    ensures forall p, q :: 0 <= p < q <= i ==> a[p].id >= a[q].id
    ensures multiset(a[..]) == multiset(old(a[..]))
  {
    var j := i;
    while j > 0 && a[j - 1].id < a[j].id
      invariant 0 <= j <= i
      invariant forall p, q :: 0 <= p < q <= i && p != j && q != j ==> a[p].id >= a[q].id
      invariant forall q :: j < q <= i ==> a[j].id > a[q].id
      invariant 0 < j < i ==> a[j - 1].id >= a[j + 1].id
      invariant multiset(a[..]) == multiset(old(a[..]))
    {
      SwapDown(a, j);
      j := j - 1;
    }
  }

  /** Helper: exchanges the notices at `j - 1` and `j` and leaves the rest
      of the array alone. */
  method SwapDown(a: array<Notice>, j: int)
    requires 0 < j < a.Length
    modifies a
    ensures a[j - 1] == old(a[j]) && a[j] == old(a[j - 1])
    ensures forall k :: 0 <= k < a.Length && k != j - 1 && k != j ==> a[k] == old(a[k])
    ensures multiset(a[..]) == multiset(old(a[..]))
  {
    a[j - 1], a[j] := a[j], a[j - 1];
  }
}
