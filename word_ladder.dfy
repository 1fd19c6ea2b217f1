/**
 * The word ladder (`WordLadderPuzzle`): step from a word to a target word,
 * changing one letter at a time, every intermediate word drawn from a word
 * set. The puzzle is solved when the current word is the target; it fails
 * fast when the two words differ in length.
 */
module WordLadder {
  import opened Wrappers
  import opened PuzzleTools
  import opened DepthFirst
  import opened BreadthFirst

  /** `_chars`: the letters a step may put in, always a to z. */
  const Chars: string := "abcdefghijklmnopqrstuvwxyz"

  /** The letters of the alphabet are consecutive character codes from `a`. */
  lemma LetterCode(k: nat)
    requires k < |Chars|
    ensures Chars[k] as int == 'a' as int + k
  {
  }

  /** A snapshot: the current word, the target word and the word set. */
  datatype Puzzle = Puzzle(fromWord: string, toWord: string, wordSet: set<string>)

  /** `__eq__`: equal words, equal word sets (the alphabets are always equal). */
  function Equal(a: Puzzle, b: Puzzle): (r: bool)
    ensures r <==> a == b
  {
    a.fromWord == b.fromWord && a.toWord == b.toWord && a.wordSet == b.wordSet
  }

  /** `__str__`: the current word, an arrow, the target word. */
  function Shown(p: Puzzle): string
  {
    p.fromWord + " -> " + p.toWord
  }

  /** `is_solved`: the current word is the target. */
  predicate Solved(p: Puzzle)
  {
    p.fromWord == p.toWord
  }

  /** `fail_fast`: the current word and the target differ in length. */
  predicate FailFast(p: Puzzle)
  {
    |p.fromWord| != |p.toWord|
  }

  // ---------------------------------------------------------------------------
  // Extensions
  // ---------------------------------------------------------------------------

  /** The word with its letter at position i replaced by `ch`. */
  function Substitute(w: string, i: nat, ch: char): (v: string)
    requires i < |w|
    ensures |v| == |w| && v[i] == ch && forall j :: 0 <= j < |w| && j != i ==> v[j] == w[j]
  {
    w[..i] + [ch] + w[i + 1..]
  }

  /** The extension that letter k of the alphabet at position i makes, if its word is allowed. */
  function TryLetter(p: Puzzle, i: nat, k: nat): seq<Puzzle>
    requires i < |p.fromWord| && k < |Chars|
  {
    var w := Substitute(p.fromWord, i, Chars[k]);
    if w in p.wordSet && w != p.fromWord then [Puzzle(w, p.toWord, p.wordSet)] else []
  }

  /** The extensions at position i from letter k of the alphabet on. */
  function LetterExtensions(p: Puzzle, i: nat, k: nat): seq<Puzzle>
    requires i < |p.fromWord| && k <= |Chars|
    decreases |Chars| - k
  {
    if k == |Chars| then [] else TryLetter(p, i, k) + LetterExtensions(p, i, k + 1)
  }

  /** The extensions at positions i and after, position by position. */
  function PositionExtensions(p: Puzzle, i: nat): seq<Puzzle>
    requires i <= |p.fromWord|
    decreases |p.fromWord| - i
  {
    if i == |p.fromWord| then [] else LetterExtensions(p, i, 0) + PositionExtensions(p, i + 1)
  }

  /** `extensions`: every allowed word one letter away, by position, then by letter. */
  function ExtensionsOf(p: Puzzle): seq<Puzzle>
  {
    PositionExtensions(p, 0)
  }

  /** `b` is `a` with the letter at position i changed to another letter of the alphabet. */
  predicate StepAt(a: string, b: string, i: int)
  {
    && 0 <= i < |a| && |b| == |a|
    && b[i] in Chars && b[i] != a[i]
    && forall j :: 0 <= j < |a| && j != i ==> b[j] == a[j]
  }

  /** The letters of the alphabet are pairwise different. */
  lemma LettersDiffer(k: nat, k': nat)
    requires k < k' < |Chars|
    ensures Chars[k] != Chars[k']
  {
    LetterCode(k);
    LetterCode(k');
  }

  /** A word one letter away, as `extensions` builds it. */
  lemma StepIsSubstitution(a: string, b: string, i: int)
    requires StepAt(a, b, i)
    ensures b == Substitute(a, i, b[i]) && b != a
  {
  }

  lemma TryLetterMembers(p: Puzzle, i: nat, k: nat, q: Puzzle)
    requires i < |p.fromWord| && k < |Chars|
    ensures q in TryLetter(p, i, k) <==>
      && q == Puzzle(Substitute(p.fromWord, i, Chars[k]), p.toWord, p.wordSet)
      && q.fromWord in p.wordSet && q.fromWord != p.fromWord
  {
  }

  /** The extensions at position i from letter k on are the allowed words with a later letter there. */
  lemma {:induction false} LetterExtensionsMembers(p: Puzzle, i: nat, k: nat, q: Puzzle)
    requires i < |p.fromWord| && k <= |Chars|
    ensures q in LetterExtensions(p, i, k) <==>
      && q.toWord == p.toWord && q.wordSet == p.wordSet
      && q.fromWord in p.wordSet && StepAt(p.fromWord, q.fromWord, i)
      && exists n :: k <= n < |Chars| && q.fromWord[i] == Chars[n]
    decreases |Chars| - k
  {
    if k < |Chars| {
      TryLetterMembers(p, i, k, q);
      LetterExtensionsMembers(p, i, k + 1, q);
      if q in TryLetter(p, i, k) {
        assert q.fromWord[i] == Chars[k];
      }
      if && q.toWord == p.toWord && q.wordSet == p.wordSet
         && q.fromWord in p.wordSet && StepAt(p.fromWord, q.fromWord, i)
         && q.fromWord[i] == Chars[k]
      {
        StepIsSubstitution(p.fromWord, q.fromWord, i);
      }
    }
  }

  /** Every letter of the alphabet has a place in it. */
  lemma LetterIndex(ch: char) returns (n: nat)
    requires ch in Chars
    ensures n < |Chars| && Chars[n] == ch
  {
    n :| 0 <= n < |Chars| && Chars[n] == ch;
  }

  /** The extensions at positions i and after are the allowed words one letter away at such a position. */
  lemma {:induction false} PositionExtensionsMembers(p: Puzzle, i: nat, q: Puzzle)
    requires i <= |p.fromWord|
    ensures q in PositionExtensions(p, i) <==>
      && q.toWord == p.toWord && q.wordSet == p.wordSet && q.fromWord in p.wordSet
      && exists n :: i <= n && StepAt(p.fromWord, q.fromWord, n)
    decreases |p.fromWord| - i
  {
    if i < |p.fromWord| {
      LetterExtensionsMembers(p, i, 0, q);
      PositionExtensionsMembers(p, i + 1, q);
      if && q.toWord == p.toWord && q.wordSet == p.wordSet && q.fromWord in p.wordSet
         && StepAt(p.fromWord, q.fromWord, i)
      {
        var n := LetterIndex(q.fromWord[i]);
      }
      if && q.toWord == p.toWord && q.wordSet == p.wordSet && q.fromWord in p.wordSet
         && exists n :: i <= n && StepAt(p.fromWord, q.fromWord, n)
      {
        var n :| i <= n && StepAt(p.fromWord, q.fromWord, n);
        if n > i {
          assert exists n' :: i + 1 <= n' && StepAt(p.fromWord, q.fromWord, n');
        }
      }
    }
  }

  /**
   * The extensions are exactly the puzzles with the same target and word set
   * whose word is in the set and one letter of the alphabet away from the
   * current word.
   */
  lemma ExtensionsAreSteps(p: Puzzle, q: Puzzle)
    ensures q in ExtensionsOf(p) <==>
      && q.toWord == p.toWord && q.wordSet == p.wordSet && q.fromWord in p.wordSet
      && exists n :: StepAt(p.fromWord, q.fromWord, n)
  {
    PositionExtensionsMembers(p, 0, q);
  }

  /**
   * Every extension keeps the target and the word set, and its word is in the
   * set, as long as the current word, and different from it in exactly the
   * returned position.
   */
  lemma ExtensionStep(p: Puzzle, q: Puzzle) returns (n: nat)
    requires q in ExtensionsOf(p)
    ensures q.toWord == p.toWord && q.wordSet == p.wordSet && q.fromWord in p.wordSet
    ensures |q.fromWord| == |p.fromWord|
    ensures n < |p.fromWord| && q.fromWord[n] != p.fromWord[n]
    ensures forall j :: 0 <= j < |p.fromWord| && j != n ==> q.fromWord[j] == p.fromWord[j]
  {
    ExtensionsAreSteps(p, q);
    n :| StepAt(p.fromWord, q.fromWord, n);
  }

  /** The current word is never among its extensions. */
  lemma NotOwnExtension(p: Puzzle, q: Puzzle)
    requires q in ExtensionsOf(p)
    ensures q.fromWord != p.fromWord
  {
    var n := ExtensionStep(p, q);
  }

  lemma DistinctAppend<T>(a: seq<T>, b: seq<T>)
    requires Distinct(a) && Distinct(b)
    requires forall i, j :: 0 <= i < |a| && 0 <= j < |b| ==> a[i] != b[j]
    ensures Distinct(a + b)
  {
    forall i, j | 0 <= i < j < |a + b|
      ensures (a + b)[i] != (a + b)[j]
    {
      if j < |a| {
        assert (a + b)[i] == a[i] && (a + b)[j] == a[j];
      } else if i >= |a| {
        assert (a + b)[i] == b[i - |a|] && (a + b)[j] == b[j - |a|];
      } else {
        assert (a + b)[i] == a[i] && (a + b)[j] == b[j - |a|];
      }
    }
  }

  /** The extension letter k makes differs from every later letter's. */
  lemma TryLetterIsNew(p: Puzzle, i: nat, k: nat, x: Puzzle, y: Puzzle)
    requires i < |p.fromWord| && k < |Chars|
    requires x in TryLetter(p, i, k) && y in LetterExtensions(p, i, k + 1)
    ensures x != y
  {
    LetterExtensionsMembers(p, i, k + 1, y);
    var n :| k + 1 <= n < |Chars| && y.fromWord[i] == Chars[n];
    LettersDiffer(k, n);
  }

  /** No word appears twice among the extensions at one position: each has its own letter there. */
  lemma {:induction false} LetterExtensionsDistinct(p: Puzzle, i: nat, k: nat)
    requires i < |p.fromWord| && k <= |Chars|
    ensures Distinct(LetterExtensions(p, i, k))
    decreases |Chars| - k
  {
    if k < |Chars| {
      var a, b := TryLetter(p, i, k), LetterExtensions(p, i, k + 1);
      LetterExtensionsDistinct(p, i, k + 1);
      forall m, n | 0 <= m < |a| && 0 <= n < |b|
        ensures a[m] != b[n]
      {
        TryLetterIsNew(p, i, k, a[m], b[n]);
      }
      DistinctAppend(a, b);
    }
  }

  /** An extension at position i differs from every extension at a later position. */
  lemma PositionIsNew(p: Puzzle, i: nat, x: Puzzle, y: Puzzle)
    requires i < |p.fromWord|
    requires x in LetterExtensions(p, i, 0) && y in PositionExtensions(p, i + 1)
    ensures x != y
  {
    LetterExtensionsMembers(p, i, 0, x);
    PositionExtensionsMembers(p, i + 1, y);
    var n :| i + 1 <= n && StepAt(p.fromWord, y.fromWord, n);
    assert x.fromWord[i] != p.fromWord[i] == y.fromWord[i];
  }

  /** No word appears twice among the extensions at positions i and after. */
  lemma {:induction false} PositionExtensionsDistinct(p: Puzzle, i: nat)
    requires i <= |p.fromWord|
    ensures Distinct(PositionExtensions(p, i))
    decreases |p.fromWord| - i
  {
    if i < |p.fromWord| {
      var a, b := LetterExtensions(p, i, 0), PositionExtensions(p, i + 1);
      LetterExtensionsDistinct(p, i, 0);
      PositionExtensionsDistinct(p, i + 1);
      forall m, n | 0 <= m < |a| && 0 <= n < |b|
        ensures a[m] != b[n]
      {
        PositionIsNew(p, i, a[m], b[n]);
      }
      DistinctAppend(a, b);
    }
  }

  /** No extension appears twice. */
  lemma ExtensionsAreDistinct(p: Puzzle)
    ensures Distinct(ExtensionsOf(p))
  {
    PositionExtensionsDistinct(p, 0);
  }

  // ---------------------------------------------------------------------------
  // The methods of WordLadderPuzzle
  // ---------------------------------------------------------------------------

  /** The extensions collected before position i are followed by those from position i on. */
  ghost predicate WordScanned(p: Puzzle, lst: seq<Puzzle>, i: nat)
  {
    i <= |p.fromWord| && lst + PositionExtensions(p, i) == ExtensionsOf(p)
  }

  /** The extensions collected before letter k at position i are followed by the rest. */
  ghost predicate LetterScanned(p: Puzzle, lst: seq<Puzzle>, i: nat, k: nat)
  {
    && i < |p.fromWord| && k <= |Chars|
    && lst + LetterExtensions(p, i, k) + PositionExtensions(p, i + 1) == ExtensionsOf(p)
  }

  lemma Regroup<T>(a: seq<T>, b: seq<T>, c: seq<T>)
    ensures a + (b + c) == a + b + c
  {
  }

  /** Starting a position splits the remaining extensions into this position's and the later ones. */
  lemma StartPosition(p: Puzzle, lst: seq<Puzzle>, i: nat)
    requires WordScanned(p, lst, i) && i < |p.fromWord|
    ensures LetterScanned(p, lst, i, 0)
  {
    Regroup(lst, LetterExtensions(p, i, 0), PositionExtensions(p, i + 1));
  }

  /** Trying one more letter keeps the collected extensions a prefix of all of them. */
  lemma NextLetter(p: Puzzle, lst: seq<Puzzle>, i: nat, k: nat, found: seq<Puzzle>)
    requires LetterScanned(p, lst, i, k) && k < |Chars| && found == TryLetter(p, i, k)
    ensures LetterScanned(p, lst + found, i, k + 1)
  {
    Regroup(lst, found, LetterExtensions(p, i, k + 1));
  }

  /** Finishing a position leaves the later positions. */
  lemma EndPosition(p: Puzzle, lst: seq<Puzzle>, i: nat)
    requires LetterScanned(p, lst, i, |Chars|)
    ensures WordScanned(p, lst, i + 1)
  {
    var rest := LetterExtensions(p, i, |Chars|);
    assert rest == [];
    assert lst + rest == lst;
  }

  /** The new word of letter k at position i, kept if it is in the set and not the current word. */
  method TryLetterAt(p: Puzzle, i: nat, k: nat) returns (found: seq<Puzzle>)
    requires i < |p.fromWord| && k < |Chars|
    ensures found == TryLetter(p, i, k)
  {
    var c := Chars[k];
    var newWord := p.fromWord[..i] + [c] + p.fromWord[i + 1..];
    found := [];
    if newWord in p.wordSet && newWord != p.fromWord {
      found := [Puzzle(newWord, p.toWord, p.wordSet)];
    }
  }

  /** `extensions`: try every letter at every position, keeping the new words of the set. */
  method Extensions(p: Puzzle) returns (lst: seq<Puzzle>)
    ensures lst == ExtensionsOf(p)
  {
    lst := [];
    for i := 0 to |p.fromWord|
      invariant WordScanned(p, lst, i)
    {
      StartPosition(p, lst, i);
      for k := 0 to |Chars|
        invariant LetterScanned(p, lst, i, k)
      {
        var found := TryLetterAt(p, i, k);
        NextLetter(p, lst, i, k, found);
        lst := lst + found;
      }
      EndPosition(p, lst, i);
    }
    assert PositionExtensions(p, |p.fromWord|) == [];
  }

  // ---------------------------------------------------------------------------
  // The puzzle as seen by the solvers
  // ---------------------------------------------------------------------------

  /** The word ladder overrides `fail_fast`. */
  function Ops(): PuzzleOps<Puzzle>
  {
    PuzzleOps(ExtensionsOf, Solved, FailFast)
  }

  /** Along a path the word length, the target and the word set never change. */
  lemma {:induction false} PathKeepsLength(path: seq<Puzzle>, k: nat)
    requires IsPath(Ops(), path) && k < |path|
    ensures |path[k].fromWord| == |path[0].fromWord| && path[k].toWord == path[0].toWord
    ensures path[k].wordSet == path[0].wordSet
  {
    if k > 0 {
      PathKeepsLength(path, k - 1);
      var n := ExtensionStep(path[k - 1], path[k]);
    }
  }

  /** `fail_fast` is sound: a word of the wrong length never reaches the target. */
  lemma FailFastIsSound()
    ensures FailFastSound(Ops())
  {
    forall s, path | FailFast(s)
      ensures !IsSolution(Ops(), s, path)
    {
      if IsPath(Ops(), path) && path[0] == s {
        PathKeepsLength(path, |path| - 1);
      }
    }
  }

  /** The puzzles a ladder can reach: its own, and one per word of the set. */
  function Universe(p: Puzzle): (u: set<Puzzle>)
    ensures p in u
  {
    {p} + set w | w in p.wordSet :: Puzzle(w, p.toWord, p.wordSet)
  }

  /** The reachable puzzles are closed under extensions, so the solvers terminate on them. */
  lemma UniverseIsClosed(p: Puzzle)
    ensures Closed(Ops(), Universe(p))
  {
    forall s, k | s in Universe(p) && 0 <= k < |ExtensionsOf(s)|
      ensures ExtensionsOf(s)[k] in Universe(p)
    {
      var q := ExtensionsOf(s)[k];
      var n := ExtensionStep(s, q);
      assert q == Puzzle(q.fromWord, p.toWord, p.wordSet);
    }
  }

  /**
   * Depth-first search on a word ladder finds a chain exactly when one exists,
   * because its `fail_fast` is sound.
   */
  method SolveDepthFirst(p: Puzzle) returns (arena: seq<PuzzleNode<Puzzle>>, root: Option<nat>, ghost chain: seq<nat>)
    ensures root.Some? ==> IsChain(arena, root.value, chain) && IsSolution(Ops(), p, States(arena, chain))
    ensures root.Some? ==> Distinct(States(arena, chain))
    ensures root.Some? <==> exists path :: IsSolution(Ops(), p, path)
  {
    UniverseIsClosed(p);
    FailFastIsSound();
    arena, root, chain := DepthFirstSolve(Ops(), Universe(p), p);
  }

  /**
   * Breadth-first search on a word ladder finds a shortest chain, with no
   * word twice, exactly when one exists.
   */
  method SolveBreadthFirst(p: Puzzle) returns (arena: seq<PuzzleNode<Puzzle>>, root: Option<nat>, ghost chain: seq<nat>)
    ensures root.Some? ==> IsChain(arena, root.value, chain) && IsSolution(Ops(), p, States(arena, chain))
    ensures root.Some? ==> Distinct(States(arena, chain))
    ensures root.Some? ==> forall path :: IsSolution(Ops(), p, path) ==> |chain| <= |path|
    ensures root.Some? <==> exists path :: IsSolution(Ops(), p, path)
  {
    UniverseIsClosed(p);
    arena, root, chain := BreadthFirstSolve(Ops(), Universe(p), p);
  }

  // ---------------------------------------------------------------------------
  // Rendering
  // ---------------------------------------------------------------------------

  /** The text starts with the current word followed by a space. */
  lemma ShownStartsWithWord(p: Puzzle)
    ensures |Shown(p)| > |p.fromWord| && Shown(p)[|p.fromWord|] == ' '
    ensures forall j :: 0 <= j < |p.fromWord| ==> Shown(p)[j] == p.fromWord[j]
  {
  }

  /** The text tells both words apart, as long as the current word holds no space. */
  lemma ShownIsInjective(a: Puzzle, b: Puzzle)
    requires ' ' !in a.fromWord && ' ' !in b.fromWord && Shown(a) == Shown(b)
    ensures a.fromWord == b.fromWord && a.toWord == b.toWord
  {
    var s := Shown(a);
    ShownStartsWithWord(a);
    ShownStartsWithWord(b);
    if |a.fromWord| == |b.fromWord| {
      var n := |a.fromWord|;
      assert a.fromWord == s[..n] == b.fromWord;
      assert a.toWord == s[n + 4..] == b.toWord;
    }
  }

  // ---------------------------------------------------------------------------
  // The documented examples
  // ---------------------------------------------------------------------------

  /** The documented rendering. */
  lemma ShownExample(p: Puzzle)
    requires p.fromWord == "cost" && p.toWord == "save"
    ensures Shown(p) == "cost -> save"
  {
  }

  /** A repetition-free sequence whose only member is x is [x]. */
  lemma OnlyMember<T>(s: seq<T>, x: T)
    requires Distinct(s) && x in s && forall y :: y in s ==> y == x
    ensures s == [x]
  {
    if |s| > 1 {
      FirstTwo(s);
    }
  }

  lemma FirstTwo<T>(s: seq<T>)
    requires |s| > 1
    ensures s[0] in s && s[1] in s
  {
  }

  /** A step changes one letter: of any two positions, one keeps its letter. */
  lemma OneChange(a: string, b: string, n: int, j: nat, j': nat)
    requires StepAt(a, b, n) && j < j' < |a|
    ensures a[j] == b[j] || a[j'] == b[j']
  {
  }

  /** From "cost" the only allowed word one letter away is "cast". */
  lemma CostSteps(words: set<string>, w: string)
    requires words == {"cost", "cast", "case", "cave", "save"}
    requires w in words && exists n :: StepAt("cost", w, n)
    ensures w == "cast"
  {
    var n :| StepAt("cost", w, n);
    OneChange("cost", w, n, 1, 3);
    OneChange("cost", w, n, 1, 2);
    OneChange("cost", w, n, 0, 1);
  }

  /** The documented ladder from "cost" to "save" has the single extension "cast". */
  lemma CostExtensions(p: Puzzle)
    requires p == Puzzle("cost", "save", {"cost", "cast", "case", "cave", "save"})
    ensures ExtensionsOf(p) == [Puzzle("cast", "save", p.wordSet)]
  {
    var cast := Puzzle("cast", "save", p.wordSet);
    assert StepAt(p.fromWord, cast.fromWord, 1) by {
      assert Chars[0] == 'a';
    }
    ExtensionsAreSteps(p, cast);
    forall q | q in ExtensionsOf(p)
      ensures q == cast
    {
      ExtensionsAreSteps(p, q);
      CostSteps(p.wordSet, q.fromWord);
    }
    ExtensionsAreDistinct(p);
    OnlyMember(ExtensionsOf(p), cast);
  }

  // ---------------------------------------------------------------------------
  // Solving the documented ladder
  // ---------------------------------------------------------------------------

  const LadderWords: set<string> := {"cost", "cast", "case", "cave", "save"}

  /** The words of the documented solution, in order. */
  const Ladder: seq<string> := ["cost", "cast", "case", "cave", "save"]

  /** A state of the documented ladder towards "save". */
  function Rung(w: string): Puzzle
  {
    Puzzle(w, "save", LadderWords)
  }

  /** The documented solution: cost, cast, case, cave, save. */
  function CostToSave(): seq<Puzzle>
  {
    [Rung("cost"), Rung("cast"), Rung("case"), Rung("cave"), Rung("save")]
  }

  /** The place of a word on the ladder; every word of the documented set has one. */
  function Place(w: string): (i: nat)
    ensures w in LadderWords ==> i < |Ladder| && Ladder[i] == w
  {
    if w == "cost" then 0 else if w == "cast" then 1 else if w == "case" then 2 else if w == "cave" then 3 else 4
  }

  /** Words that differ in two positions are not one step apart. */
  lemma NoStep(a: string, b: string, x: nat, y: nat)
    requires x < y < |a| && |b| == |a| && a[x] != b[x] && a[y] != b[y]
    ensures forall n :: !StepAt(a, b, n) && !StepAt(b, a, n)
  {
  }

  /**
   * A one-letter step between words of the documented set goes one place up
   * or down the ladder.
   */
  lemma StepsBetween(i: nat, j: nat, n: int)
    requires i < |Ladder| && j < |Ladder| && StepAt(Ladder[i], Ladder[j], n)
    ensures j == i + 1 || j + 1 == i
  {
    var lo, hi := if i < j then i else j, if i < j then j else i;
    if lo + 1 < hi {
      if lo == 0 && hi == 2 {
        NoStep(Ladder[lo], Ladder[hi], 1, 3);
      } else if lo == 0 && hi == 3 {
        NoStep(Ladder[lo], Ladder[hi], 1, 2);
      } else if lo == 0 {
        NoStep(Ladder[lo], Ladder[hi], 0, 1);
      } else if lo == 1 && hi == 3 {
        NoStep(Ladder[lo], Ladder[hi], 2, 3);
      } else {
        NoStep(Ladder[lo], Ladder[hi], 0, 2);
      }
    }
  }

  /** Consecutive words of the ladder are one letter apart. */
  lemma LadderStep(i: nat) returns (n: nat)
    requires i + 1 < |Ladder|
    ensures StepAt(Ladder[i], Ladder[i + 1], n)
  {
    assert Chars[0] == 'a' && Chars[4] == 'e' && Chars[18] == 's' && Chars[21] == 'v';
    n := if i == 0 then 1 else if i == 1 then 3 else if i == 2 then 2 else 0;
  }

  /** Every state of a path from "cost" is a rung of the documented ladder. */
  lemma OnLadder(p: seq<Puzzle>, k: nat)
    requires IsPath(Ops(), p) && p[0] == Rung("cost") && k < |p|
    ensures p[k].fromWord in LadderWords && p[k] == Rung(p[k].fromWord)
  {
    PathKeepsLength(p, k);
    if k > 0 {
      var n := ExtensionStep(p[k - 1], p[k]);
      PathKeepsLength(p, k - 1);
    }
  }

  /** A step between rungs goes one place up or down the ladder. */
  lemma StepPlaces(a: Puzzle, b: Puzzle)
    requires b in ExtensionsOf(a) && a.fromWord in LadderWords && b.fromWord in LadderWords
    ensures Place(b.fromWord) == Place(a.fromWord) + 1 || Place(b.fromWord) + 1 == Place(a.fromWord)
  {
    ExtensionsAreSteps(a, b);
    var n :| StepAt(a.fromWord, b.fromWord, n);
    StepsBetween(Place(a.fromWord), Place(b.fromWord), n);
  }

  /** The documented chain is a solution and repeats no word. */
  lemma CostToSaveSolves()
    ensures IsSolution(Ops(), Rung("cost"), CostToSave()) && Distinct(CostToSave())
  {
    forall k | 0 <= k < |Ladder| - 1
      ensures Rung(Ladder[k + 1]) in ExtensionsOf(Rung(Ladder[k]))
    {
      var n := LadderStep(k);
      ExtensionsAreSteps(Rung(Ladder[k]), Rung(Ladder[k + 1]));
    }
    assert forall k :: 0 <= k < |Ladder| ==> CostToSave()[k] == Rung(Ladder[k]);
  }

  /** The places of the states of a path from "cost", each one up or down from the one before. */
  lemma LadderPlaces(p: seq<Puzzle>) returns (idx: seq<nat>)
    requires IsPath(Ops(), p) && p[0] == Rung("cost")
    ensures |idx| == |p| && idx[0] == 0
    ensures forall m :: 0 <= m < |p| ==> idx[m] < |Ladder| && p[m] == Rung(Ladder[idx[m]])
    ensures forall m :: 0 <= m < |idx| - 1 ==> idx[m + 1] == idx[m] + 1 || idx[m + 1] + 1 == idx[m]
  {
    idx := seq(|p|, m requires 0 <= m < |p| => Place(p[m].fromWord));
    forall m | 0 <= m < |p|
      ensures idx[m] < |Ladder| && p[m] == Rung(Ladder[idx[m]])
    {
      OnLadder(p, m);
    }
    forall m | 0 <= m < |idx| - 1
      ensures idx[m + 1] == idx[m] + 1 || idx[m + 1] + 1 == idx[m]
    {
      OnLadder(p, m);
      OnLadder(p, m + 1);
      StepPlaces(p[m], p[m + 1]);
    }
  }

  /**
   * Moving one place at a time from place 0 without revisiting a place, the
   * k-th place is k.
   */
  lemma {:induction false} Climb(idx: seq<nat>, k: nat)
    requires |idx| > 0 && idx[0] == 0 && k < |idx|
    requires forall m :: 0 <= m < |idx| - 1 ==> idx[m + 1] == idx[m] + 1 || idx[m + 1] + 1 == idx[m]
    requires forall m, m' :: 0 <= m < m' < |idx| ==> idx[m] != idx[m']
    ensures idx[k] == k
  {
    if k > 0 {
      Climb(idx, k - 1);
      if k >= 2 {
        Climb(idx, k - 2);
      }
    }
  }

  /** The documented chain is the only solution from "cost" that repeats no word. */
  lemma OnlySimpleLadder(p: seq<Puzzle>)
    requires IsSolution(Ops(), Rung("cost"), p) && Distinct(p)
    ensures p == CostToSave()
  {
    var idx := LadderPlaces(p);
    forall m, m' | 0 <= m < m' < |idx|
      ensures idx[m] != idx[m']
    {
      assert p[m] != p[m'];
    }
    Climb(idx, |p| - 1);
    assert |p| == |Ladder|;
    forall k | 0 <= k < |p|
      ensures p[k] == CostToSave()[k]
    {
      Climb(idx, k);
    }
  }

  /**
   * On the documented ladder both solvers return the chain
   * cost, cast, case, cave, save.
   */
  method SolveCostToSave()
    returns (dfsArena: seq<PuzzleNode<Puzzle>>, dfsRoot: Option<nat>, ghost dfsChain: seq<nat>,
             bfsArena: seq<PuzzleNode<Puzzle>>, bfsRoot: Option<nat>, ghost bfsChain: seq<nat>)
    ensures dfsRoot.Some? && IsChain(dfsArena, dfsRoot.value, dfsChain) && States(dfsArena, dfsChain) == CostToSave()
    ensures bfsRoot.Some? && IsChain(bfsArena, bfsRoot.value, bfsChain) && States(bfsArena, bfsChain) == CostToSave()
  {
    CostToSaveSolves();
    dfsArena, dfsRoot, dfsChain := SolveDepthFirst(Rung("cost"));
    OnlySimpleLadder(States(dfsArena, dfsChain));
    bfsArena, bfsRoot, bfsChain := SolveBreadthFirst(Rung("cost"));
    OnlySimpleLadder(States(bfsArena, bfsChain));
  }
}
