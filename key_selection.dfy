/**
 * Parsing of the context-data / MDC key selection shared by the Log4j and the
 * Logback appenders: a comma-separated configuration string becomes the set of
 * its non-empty, whitespace-trimmed pieces, and the selection `*` alone means
 * "capture every key".
 */
module KeySelection {

  /** A Java reference that may be `null`. */
  datatype Option<+T> = None | Some(value: T)

  const Separator: char := ','

  /** The wildcard key: a selection that holds exactly this key selects every key. */
  const Wildcard: string := "*"

  // ---------------------------------------------------------------------------
  // Splitting on the separator
  // ---------------------------------------------------------------------------

  /**
   * Every piece of `s` between separators, trailing empty pieces included:
   * "a,,b," has the four pieces "a", "", "b" and "".
   */
  function Split(s: string): (pieces: seq<string>)
    ensures |pieces| > 0
  {
    if s == [] then [[]]
    else
      var rest := Split(s[1..]);
      if s[0] == Separator then [[]] + rest
      else [[s[0]] + rest[0]] + rest[1..]
  }

  /** The pieces put back together with a separator between neighbours. */
  function Join(pieces: seq<string>): string
    requires |pieces| > 0
  {
    if |pieces| == 1 then pieces[0] else pieces[0] + [Separator] + Join(pieces[1..])
  }

  lemma {:induction false} SplitWithoutSeparator(p: string)
    requires Separator !in p
    ensures Split(p) == [p]
  {
    if p != [] {
      SplitWithoutSeparator(p[1..]);
      assert [p[0]] + p[1..] == p;
    }
  }

  /** No piece holds a separator. */
  lemma {:induction false} SplitPiecesWithoutSeparator(s: string)
    ensures forall p <- Split(s) :: Separator !in p
  {
    if s != [] {
      SplitPiecesWithoutSeparator(s[1..]);
      var rest := Split(s[1..]);
      if s[0] != Separator {
        assert Split(s) == [[s[0]] + rest[0]] + rest[1..];
        assert forall p <- rest[1..] :: p in rest;
      }
    }
  }

  /** Splitting distributes over a separator: the pieces of `a,b` are those of `a` then those of `b`. */
  lemma {:induction false} SplitAppend(a: string, b: string)
    ensures Split(a + [Separator] + b) == Split(a) + Split(b)
  {
    var s := a + [Separator] + b;
    if a == [] {
      assert s[1..] == b;
    } else {
      assert s[1..] == a[1..] + [Separator] + b;
      SplitAppend(a[1..], b);
    }
  }

  /** Joining the pieces of `s` gives `s` back. */
  lemma {:induction false} JoinSplit(s: string)
    ensures Join(Split(s)) == s
  {
    if s != [] {
      var rest := Split(s[1..]);
      JoinSplit(s[1..]);
      if s[0] == Separator {
        assert Split(s)[1..] == rest;
      } else if |rest| == 1 {
        assert [s[0]] + s[1..] == s;
      } else {
        assert Split(s)[1..] == rest[1..];
        assert Join(rest) == rest[0] + [Separator] + Join(rest[1..]);
        assert [s[0]] + s[1..] == s;
      }
    }
  }

  /** Splitting a join of separator-free pieces gives the pieces back. */
  lemma {:induction false} SplitJoin(pieces: seq<string>)
    requires |pieces| > 0
    requires forall p <- pieces :: Separator !in p
    ensures Split(Join(pieces)) == pieces
  {
    SplitWithoutSeparator(pieces[0]);
    if |pieces| > 1 {
      SplitJoin(pieces[1..]);
      SplitAppend(pieces[0], Join(pieces[1..]));
      assert [pieces[0]] + pieces[1..] == pieces;
    }
  }

  /**
   * `s[a..b]` is a whole field of `s`: it starts at the beginning of `s` or just
   * after a separator, ends at the end of `s` or just before a separator, and
   * holds no separator itself.
   */
  ghost predicate FieldAt(s: string, a: int, b: int)
  {
    0 <= a <= b <= |s| &&
    (a == 0 || s[a - 1] == Separator) &&
    (b == |s| || s[b] == Separator) &&
    Separator !in s[a..b]
  }

  /** The pieces of `s` from a field that starts at position `a` on. */
  lemma FieldPieces(s: string, a: int, b: int)
    requires FieldAt(s, a, b)
    ensures Split(s[a..]) == [s[a..b]] + (if b < |s| then Split(s[b + 1..]) else [])
  {
    var field := s[a..b];
    SplitWithoutSeparator(field);
    if b < |s| {
      assert s[a..] == field + [Separator] + s[b + 1..];
      SplitAppend(field, s[b + 1..]);
    } else {
      assert s[a..] == field;
    }
  }

  /** Every field of `s` is one of its pieces. */
  lemma FieldInSplit(s: string, a: int, b: int)
    requires FieldAt(s, a, b)
    ensures s[a..b] in Split(s)
  {
    var tail := s[a..];
    FieldPieces(s, a, b);
    if a > 0 {
      var before := s[..a - 1];
      assert s == before + [Separator] + tail;
      SplitAppend(before, tail);
      assert Split(s)[|Split(before)|] == Split(tail)[0];
    } else {
      assert s == tail;
    }
  }

  /** A field of `s[1..]` that does not start it, or follows a leading separator, is a field of `s`. */
  lemma FieldShift(s: string, a: int, b: int)
    requires s != [] && FieldAt(s[1..], a, b) && (a > 0 || s[0] == Separator)
    ensures FieldAt(s, a + 1, b + 1) && s[a + 1..b + 1] == s[1..][a..b]
  {
    forall t | 0 <= t < b - a ensures s[a + 1..b + 1][t] == s[1..][a..b][t] {
    }
    assert s[a + 1..b + 1] == s[1..][a..b];
  }

  /** A first field of `s[1..]` grows by `s[0]` when that is not a separator. */
  lemma FieldExtend(s: string, b: int)
    requires s != [] && s[0] != Separator && FieldAt(s[1..], 0, b)
    ensures FieldAt(s, 0, b + 1) && s[..b + 1] == [s[0]] + s[1..][..b]
  {
    assert s[..b + 1] == [s[0]] + s[1..][..b];
  }

  /** Every piece of `s` is a field of `s`; the first piece starts at 0 and no other does. */
  lemma {:induction false} PieceIsField(s: string, k: nat) returns (a: nat, b: nat)
    requires k < |Split(s)|
    ensures FieldAt(s, a, b) && Split(s)[k] == s[a..b]
    ensures a == 0 <==> k == 0
  {
    if s == [] {
      a, b := 0, 0;
      return;
    }
    var rest := Split(s[1..]);
    if s[0] == Separator && k == 0 {
      a, b := 0, 0;
    } else if s[0] == Separator {
      assert Split(s)[k] == rest[k - 1];
      var a', b' := PieceIsField(s[1..], k - 1);
      FieldShift(s, a', b');
      a, b := a' + 1, b' + 1;
    } else if k == 0 {
      assert Split(s)[0] == [s[0]] + rest[0];
      var a', b' := PieceIsField(s[1..], 0);
      FieldExtend(s, b');
      a, b := 0, b' + 1;
    } else {
      assert Split(s)[k] == rest[k];
      var a', b' := PieceIsField(s[1..], k);
      FieldShift(s, a', b');
      a, b := a' + 1, b' + 1;
    }
  }

  // ---------------------------------------------------------------------------
  // Java's String.split(",")
  // ---------------------------------------------------------------------------

  /** The pieces with every trailing empty piece removed. */
  function DropTrailingEmpty(pieces: seq<string>): (r: seq<string>)
    ensures r <= pieces
    ensures forall k | |r| <= k < |pieces| :: pieces[k] == []
    ensures r == [] || r[|r| - 1] != []
  {
    if |pieces| > 0 && pieces[|pieces| - 1] == [] then DropTrailingEmpty(pieces[..|pieces| - 1])
    else pieces
  }

  /**
   * `s.split(",")` in Java: a string without a separator is its own single piece
   * (so "" gives [""]); otherwise the pieces, minus the trailing empty ones
   * (so "," gives []).
   */
  function JavaSplit(s: string): (r: seq<string>)
    ensures Separator !in s ==> r == [s]
    ensures Separator in s ==> r == [] || r[|r| - 1] != []
    ensures r <= Split(s)
    ensures forall k | |r| <= k < |Split(s)| :: Split(s)[k] == []
  {
    if Separator !in s then
      SplitWithoutSeparator(s);
      [s]
    else DropTrailingEmpty(Split(s))
  }

  // ---------------------------------------------------------------------------
  // Java's String.trim()
  // ---------------------------------------------------------------------------

  /** `String.trim` removes every code unit up to and including U+0020. */
  predicate IsSpace(c: char): (space: bool)
    ensures space ==> c != Separator
  {
    c <= ' '
  }

  /** Only spaces stand in `s[lo..hi]`. */
  ghost predicate SpacesBetween(s: string, lo: int, hi: int)
  {
    0 <= lo <= hi <= |s| && forall t | lo <= t < hi :: IsSpace(s[t])
  }

  ghost predicate AllSpace(s: string)
  {
    SpacesBetween(s, 0, |s|)
  }

  /** Empty, or neither starts nor ends with a space. */
  ghost predicate IsTrimmed(s: string)
  {
    s == [] || (!IsSpace(s[0]) && !IsSpace(s[|s| - 1]))
  }

  /** `trim` moves its start index `st` forward over spaces, from `k` on. */
  function TrimStartIndex(s: string, k: nat): (st: nat)
    requires k <= |s|
    ensures k <= st <= |s|
    ensures st == |s| || !IsSpace(s[st])
    decreases |s| - k
  {
    if k < |s| && IsSpace(s[k]) then TrimStartIndex(s, k + 1) else k
  }

  /** `trim` then moves its end index `len` back over spaces, never below `st`. */
  function TrimEndIndex(s: string, st: nat, len: nat): (e: nat)
    requires st <= len <= |s|
    ensures st <= e <= len
    ensures e == st || !IsSpace(s[e - 1])
  {
    if st < len && IsSpace(s[len - 1]) then TrimEndIndex(s, st, len - 1) else len
  }

  /** `s.trim()` in Java: the slice between the two indices. */
  function Trim(s: string): (r: string)
    ensures IsTrimmed(r)
    ensures |r| <= |s|
  {
    var st := TrimStartIndex(s, 0);
    s[st..TrimEndIndex(s, st, |s|)]
  }

  lemma {:induction false} TrimStartSkipsSpaces(s: string, k: nat)
    requires k <= |s|
    ensures SpacesBetween(s, k, TrimStartIndex(s, k))
    decreases |s| - k
  {
    if k < |s| && IsSpace(s[k]) {
      TrimStartSkipsSpaces(s, k + 1);
    }
  }

  lemma {:induction false} TrimEndSkipsSpaces(s: string, st: nat, len: nat)
    requires st <= len <= |s|
    ensures SpacesBetween(s, TrimEndIndex(s, st, len), len)
  {
    if st < len && IsSpace(s[len - 1]) {
      TrimEndSkipsSpaces(s, st, len - 1);
    }
  }

  /** The start index stops at the first non-space after a run of spaces. */
  lemma {:induction false} TrimStartIndexAt(s: string, k: nat, m: nat)
    requires SpacesBetween(s, k, m) && (m == |s| || !IsSpace(s[m]))
    ensures TrimStartIndex(s, k) == m
    decreases m - k
  {
    if k < m {
      TrimStartIndexAt(s, k + 1, m);
    }
  }

  /** The end index stops just after the last non-space before a run of spaces. */
  lemma {:induction false} TrimEndIndexAt(s: string, st: nat, len: nat, m: nat)
    requires st <= m && SpacesBetween(s, m, len) && (m == st || !IsSpace(s[m - 1]))
    ensures TrimEndIndex(s, st, len) == m
  {
    if m < len {
      TrimEndIndexAt(s, st, len - 1, m);
    }
  }

  /** The trimmed string is a slice of the original with only spaces cut off around it. */
  lemma TrimSlice(s: string) returns (i: nat, j: nat)
    ensures i <= j <= |s| && Trim(s) == s[i..j]
    ensures SpacesBetween(s, 0, i) && SpacesBetween(s, j, |s|)
  {
    i := TrimStartIndex(s, 0);
    j := TrimEndIndex(s, i, |s|);
    TrimStartSkipsSpaces(s, 0);
    TrimEndSkipsSpaces(s, i, |s|);
  }

  /**
   * Conversely, a slice of `s` that is trimmed and has only spaces around it is
   * the trim of `s`.
   */
  lemma TrimExactly(s: string, i: nat, j: nat)
    requires SpacesBetween(s, 0, i) && SpacesBetween(s, j, |s|) && i <= j
    requires IsTrimmed(s[i..j])
    ensures Trim(s) == s[i..j]
  {
    if i < j {
      TrimStartIndexAt(s, 0, i);
      TrimEndIndexAt(s, i, |s|, j);
    } else {
      assert SpacesBetween(s, 0, |s|);
      TrimStartIndexAt(s, 0, |s|);
    }
  }

  /** Trimming never introduces a separator. */
  lemma TrimWithoutSeparator(p: string)
    requires Separator !in p
    ensures Separator !in Trim(p)
  {
    var i, j := TrimSlice(p);
  }

  /** Trimming a trimmed string surrounded by spaces gives exactly that string. */
  lemma TrimAround(w1: string, x: string, w2: string)
    requires AllSpace(w1) && AllSpace(w2) && IsTrimmed(x)
    ensures Trim(w1 + x + w2) == x
  {
    var s := w1 + x + w2;
    var i, j := |w1|, |w1| + |x|;
    forall t | 0 <= t < i ensures IsSpace(s[t]) {
      assert s[t] == w1[t];
    }
    forall t | j <= t < |s| ensures IsSpace(s[t]) {
      assert s[t] == w2[t - j];
    }
    assert s[i..j] == x;
    TrimExactly(s, i, j);
  }

  /** Trimming is idempotent. */
  lemma TrimTwice(s: string)
    ensures Trim(Trim(s)) == Trim(s)
  {
    var t := Trim(s);
    assert t[0..|t|] == t;
    TrimExactly(t, 0, |t|);
  }

  // ---------------------------------------------------------------------------
  // The key set
  // ---------------------------------------------------------------------------

  /** A selectable key: non-empty, trimmed and free of separators. */
  ghost predicate IsKey(x: string)
  {
    x != [] && IsTrimmed(x) && Separator !in x
  }

  /** The non-empty trimmed pieces, collected as a set. */
  function KeysOf(pieces: seq<string>): (keys: set<string>)
    ensures [] !in keys
    ensures forall x <- keys :: IsTrimmed(x)
  {
    set p | p in pieces && Trim(p) != [] :: Trim(p)
  }

  /**
   * `trimmedSet`: `null` selects no key; otherwise split on commas, trim each
   * piece, drop the empty ones and collect the rest into a set. The keys are
   * collected here from every piece; `TrimmedSetAsWritten` shows that Java's
   * split, which drops trailing empty pieces, selects the same keys.
   */
  function TrimmedSet(s: Option<string>): (keys: set<string>)
    ensures s.None? ==> keys == {}
  {
    match s
    case None => {}
    case Some(str) => KeysOf(Split(str))
  }

  /** The pipeline as written, over Java's split, selects exactly the same keys. */
  lemma TrimmedSetAsWritten(s: string)
    ensures TrimmedSet(Some(s)) == KeysOf(JavaSplit(s))
  {
    var java, plain := JavaSplit(s), Split(s);
    forall x | x in KeysOf(plain) ensures x in KeysOf(java) {
      var k :| 0 <= k < |plain| && Trim(plain[k]) == x && x != [];
      assert plain[k] != [];
      assert k < |java|;
      assert java[k] == plain[k];
    }
  }

  /** Every selected key is non-empty, trimmed and free of separators. */
  lemma TrimmedSetKeys(s: Option<string>)
    ensures forall x <- TrimmedSet(s) :: IsKey(x)
  {
    if s.Some? {
      SplitPiecesWithoutSeparator(s.value);
      forall x | x in TrimmedSet(s) ensures IsKey(x) {
        var p :| p in Split(s.value) && Trim(p) == x && x != [];
        TrimWithoutSeparator(p);
      }
    }
  }

  lemma KeysOfAppend(ps: seq<string>, qs: seq<string>)
    ensures KeysOf(ps + qs) == KeysOf(ps) + KeysOf(qs)
  {
  }

  /** The keys of `a,b` are the keys of `a` together with the keys of `b`. */
  lemma TrimmedSetAppend(a: string, b: string)
    ensures TrimmedSet(Some(a + [Separator] + b)) == TrimmedSet(Some(a)) + TrimmedSet(Some(b))
  {
    SplitAppend(a, b);
    KeysOfAppend(Split(a), Split(b));
  }

  /** Order does not matter: `a,b` and `b,a` select the same keys. */
  lemma TrimmedSetOrderIrrelevant(a: string, b: string)
    ensures TrimmedSet(Some(a + [Separator] + b)) == TrimmedSet(Some(b + [Separator] + a))
  {
    TrimmedSetAppend(a, b);
    TrimmedSetAppend(b, a);
  }

  /** Repetition does not matter: `a,a` selects the same keys as `a`. */
  lemma TrimmedSetRepetitionIrrelevant(a: string)
    ensures TrimmedSet(Some(a + [Separator] + a)) == TrimmedSet(Some(a))
  {
    TrimmedSetAppend(a, a);
  }

  /** A string without a separator selects its trim, unless that is empty. */
  lemma TrimmedSetOfField(p: string)
    requires Separator !in p
    ensures TrimmedSet(Some(p)) == if Trim(p) == [] then {} else {Trim(p)}
  {
    SplitWithoutSeparator(p);
  }

  /**
   * `x` is found in `s` at `s[i..j]`, inside the field `s[a..b]` with nothing
   * but spaces between the field's ends and the key.
   */
  ghost predicate KeyAt(s: string, x: string, a: int, i: int, j: int, b: int)
  {
    FieldAt(s, a, b) && a <= i <= j <= b &&
    SpacesBetween(s, a, i) && SpacesBetween(s, j, b) && s[i..j] == x
  }

  /** The trim of every piece of `s` stands, up to spaces, in a field of `s`. */
  lemma PieceKeyAt(s: string, k: nat) returns (a: int, i: int, j: int, b: int)
    requires k < |Split(s)|
    ensures KeyAt(s, Trim(Split(s)[k]), a, i, j, b)
  {
    a, b := PieceIsField(s, k);
    var i', j' := TrimSlice(s[a..b]);
    i, j := a + i', a + j';
    SliceOfSlice(s, a, b, i', j');
    SpacesFromSlice(s, a, b, 0, i');
    SpacesFromSlice(s, a, b, j', b - a);
  }

  /** Spaces in a slice are spaces in the whole string. */
  lemma SpacesFromSlice(s: string, a: int, b: int, lo: int, hi: int)
    requires 0 <= a <= b <= |s| && SpacesBetween(s[a..b], lo, hi)
    ensures SpacesBetween(s, a + lo, a + hi)
  {
    forall t | a + lo <= t < a + hi ensures IsSpace(s[t]) {
      assert s[a..b][t - a] == s[t];
    }
  }

  /** Spaces in the whole string are spaces in a slice that covers them. */
  lemma SpacesToSlice(s: string, a: int, b: int, lo: int, hi: int)
    requires 0 <= a <= lo && hi <= b <= |s| && SpacesBetween(s, lo, hi)
    ensures SpacesBetween(s[a..b], lo - a, hi - a)
  {
    forall t | lo - a <= t < hi - a ensures IsSpace(s[a..b][t]) {
      assert s[a..b][t] == s[a + t];
    }
  }
  lemma SliceOfSlice(s: string, a: int, b: int, i: int, j: int)
    requires 0 <= a <= b <= |s| && 0 <= i <= j <= b - a
    ensures s[a..b][i..j] == s[a + i..a + j]
  {
    var lhs, rhs := s[a..b][i..j], s[a + i..a + j];
    assert |lhs| == |rhs|;
    forall t | 0 <= t < |lhs| ensures lhs[t] == rhs[t] {
    }
  }

  lemma TrimmedSetComplete(s: string, x: string, a: int, i: int, j: int, b: int)
    requires IsKey(x) && KeyAt(s, x, a, i, j, b)
    ensures x in TrimmedSet(Some(s))
  {
    var p := s[a..b];
    FieldInSplit(s, a, b);
    SliceOfSlice(s, a, b, i - a, j - a);
    SpacesToSlice(s, a, b, a, i);
    SpacesToSlice(s, a, b, j, b);
    TrimExactly(p, i - a, j - a);
    assert p in Split(s) && Trim(p) == x;
  }
  /** A selected key is the trim of some piece. */
  lemma SelectedPiece(s: string, x: string) returns (k: nat)
    requires x in TrimmedSet(Some(s))
    ensures k < |Split(s)| && Trim(Split(s)[k]) == x
  {
    var pieces := Split(s);
    assert x in KeysOf(pieces);
    var p :| p in pieces && Trim(p) == x;
    k :| 0 <= k < |pieces| && pieces[k] == p;
  }

  /**
   * Membership: `x` is selected by `s` exactly when `x` is a non-empty trimmed
   * key that stands alone, up to spaces, in one comma-separated field of `s`.
   */
  lemma TrimmedSetMembers(s: string, x: string)
    ensures x in TrimmedSet(Some(s)) <==> IsKey(x) && exists a, i, j, b :: KeyAt(s, x, a, i, j, b)
  {
    if x in TrimmedSet(Some(s)) {
      TrimmedSetKeys(Some(s));
      var k := SelectedPiece(s, x);
      var a, i, j, b := PieceKeyAt(s, k);
      assert KeyAt(s, x, a, i, j, b);
    } else if IsKey(x) && exists a, i, j, b :: KeyAt(s, x, a, i, j, b) {
      var a, i, j, b :| KeyAt(s, x, a, i, j, b);
      TrimmedSetComplete(s, x, a, i, j, b);
      assert false;
    }
  }

  // ---------------------------------------------------------------------------
  // The wildcard selection
  // ---------------------------------------------------------------------------

  lemma SingletonByCardinality(keys: set<string>, x: string)
    requires |keys| == 1 && x in keys
    ensures keys == {x}
  {
    assert |keys - {x}| == 0;
  }

  /** `keys.size() == 1 && keys.contains("*")`: the selection means "every key". */
  function SelectsAll(keys: set<string>): (all: bool)
    ensures all <==> keys == {Wildcard}
  {
    if |keys| == 1 && Wildcard in keys then
      SingletonByCardinality(keys, Wildcard);
      true
    else false
  }

  /** Some piece trims to `*`, and every piece trims to `*` or to nothing. */
  ghost predicate OnlyWildcardPieces(pieces: seq<string>)
  {
    (exists k :: 0 <= k < |pieces| && Trim(pieces[k]) == Wildcard) &&
    (forall k :: 0 <= k < |pieces| ==> Trim(pieces[k]) == [] || Trim(pieces[k]) == Wildcard)
  }

  lemma WildcardKeysOnlyWildcardPieces(pieces: seq<string>)
    requires KeysOf(pieces) == {Wildcard}
    ensures OnlyWildcardPieces(pieces)
  {
    var keys := KeysOf(pieces);
    assert Wildcard in keys;
    var p :| p in pieces && Trim(p) == Wildcard;
    var k :| 0 <= k < |pieces| && pieces[k] == p;
    forall m | 0 <= m < |pieces| ensures Trim(pieces[m]) == [] || Trim(pieces[m]) == Wildcard {
      if Trim(pieces[m]) != [] {
        assert Trim(pieces[m]) in keys;
      }
    }
  }

  lemma OnlyWildcardPiecesWildcardKeys(pieces: seq<string>)
    requires OnlyWildcardPieces(pieces)
    ensures KeysOf(pieces) == {Wildcard}
  {
    var keys := KeysOf(pieces);
    var k :| 0 <= k < |pieces| && Trim(pieces[k]) == Wildcard;
    assert Wildcard in keys;
    forall x | x in keys ensures x == Wildcard {
      var m :| 0 <= m < |pieces| && Trim(pieces[m]) == x && x != [];
    }
  }

  /**
   * The selection string means "every key" exactly when some field trims to `*`
   * and every field trims to `*` or to nothing.
   */
  lemma SelectsAllFields(s: string)
    ensures SelectsAll(TrimmedSet(Some(s))) <==> OnlyWildcardPieces(Split(s))
  {
    var pieces := Split(s);
    if KeysOf(pieces) == {Wildcard} {
      WildcardKeysOnlyWildcardPieces(pieces);
    }
    if OnlyWildcardPieces(pieces) {
      OnlyWildcardPiecesWildcardKeys(pieces);
    }
  }

  // ---------------------------------------------------------------------------
  // Selections of a given shape
  // ---------------------------------------------------------------------------

  /** A key with only spaces around it selects exactly that key. */
  lemma TrimmedSetOfPaddedKey(w1: string, x: string, w2: string)
    requires AllSpace(w1) && AllSpace(w2) && IsKey(x)
    ensures TrimmedSet(Some(w1 + x + w2)) == {x}
  {
    TrimAround(w1, x, w2);
    TrimmedSetOfField(w1 + x + w2);
  }

  /** A string of spaces selects nothing. */
  lemma TrimmedSetOfBlank(w: string)
    requires AllSpace(w)
    ensures TrimmedSet(Some(w)) == {}
  {
    assert w + [] + [] == w;
    TrimAround(w, [], []);
    TrimmedSetOfField(w);
  }

  /** A key on its own selects exactly itself. */
  lemma TrimmedSetOfKey(x: string)
    requires IsKey(x)
    ensures TrimmedSet(Some(x)) == {x}
  {
    assert [] + x + [] == x;
    TrimmedSetOfPaddedKey([], x, []);
  }

  /** An empty field before a key, as in ",c", adds nothing. */
  lemma TrimmedSetOfEmptyThenKey(z: string)
    requires IsKey(z)
    ensures TrimmedSet(Some([] + [Separator] + z)) == {z}
  {
    TrimmedSetOfKey(z);
    TrimmedSetOfBlank([]);
    TrimmedSetAppend([], z);
  }

  /** The tail " b ,,c" of the sample selection, for any two keys. */
  lemma TrimmedSetOfSampleTail(y: string, z: string)
    requires IsKey(y) && IsKey(z)
    ensures TrimmedSet(Some((" " + y + " ") + [Separator] + ([] + [Separator] + z))) == {y, z}
  {
    TrimmedSetOfEmptyThenKey(z);
    TrimmedSetOfPaddedKey(" ", y, " ");
    TrimmedSetAppend(" " + y + " ", [] + [Separator] + z);
  }

  /** The shape of the sample selection "a, b ,,c", for any three keys. */
  lemma TrimmedSetOfSample(x: string, y: string, z: string)
    requires IsKey(x) && IsKey(y) && IsKey(z)
    ensures TrimmedSet(Some(x + [Separator] + ((" " + y + " ") + [Separator] + ([] + [Separator] + z)))) == {x, y, z}
  {
    TrimmedSetOfSampleTail(y, z);
    TrimmedSetOfKey(x);
    TrimmedSetAppend(x, (" " + y + " ") + [Separator] + ([] + [Separator] + z));
  }

  /** Two keys separated by a comma select exactly those two. */
  lemma TrimmedSetOfTwoKeys(x: string, y: string)
    requires IsKey(x) && IsKey(y)
    ensures TrimmedSet(Some(x + [Separator] + y)) == {x, y}
  {
    TrimmedSetOfKey(x);
    TrimmedSetOfKey(y);
    TrimmedSetAppend(x, y);
  }

  /** A key repeated with spaces around it, as in " * , * ", is selected once. */
  lemma TrimmedSetOfRepeatedPaddedKey(x: string)
    requires IsKey(x)
    ensures TrimmedSet(Some((" " + x + " ") + [Separator] + (" " + x + " "))) == {x}
  {
    TrimmedSetOfPaddedKey(" ", x, " ");
    TrimmedSetRepetitionIrrelevant(" " + x + " ");
  }

  // ---------------------------------------------------------------------------
  // Worked examples
  // ---------------------------------------------------------------------------

  lemma ExampleEmptySelections()
    ensures TrimmedSet(Some("")) == {}
    ensures TrimmedSet(Some(",")) == {}
  {
    TrimmedSetOfBlank("");
    TrimmedSetAppend("", "");
    assert "" + [Separator] + "" == ",";
  }

  lemma ExamplePaddedKey()
    ensures TrimmedSet(Some(" a ")) == {"a"}
  {
    TrimmedSetOfPaddedKey(" ", "a", " ");
    assert " " + "a" + " " == " a ";
  }

  lemma ExampleRepeatedKey()
    ensures TrimmedSet(Some("a,a")) == {"a"}
  {
    TrimmedSetOfTwoKeys("a", "a");
    assert "a" + [Separator] + "a" == "a,a";
  }

  lemma ExampleMixedSpacing()
    ensures TrimmedSet(Some("a, b ,,c")) == {"a", "b", "c"}
  {
    TrimmedSetOfSample("a", "b", "c");
    assert "a" + [Separator] + ((" " + "b" + " ") + [Separator] + ([] + [Separator] + "c")) == "a, b ,,c";
  }

  lemma ExampleWildcard()
    ensures SelectsAll(TrimmedSet(Some("*")))
  {
    TrimmedSetOfPaddedKey("", "*", "");
    assert "" + "*" + "" == "*";
  }

  lemma ExampleRepeatedPaddedWildcard()
    ensures SelectsAll(TrimmedSet(Some(" * , * ")))
  {
    TrimmedSetOfRepeatedPaddedKey(Wildcard);
    assert (" " + Wildcard + " ") + [Separator] + (" " + Wildcard + " ") == " * , * ";
  }

  lemma ExampleWildcardAmongKeys()
    ensures TrimmedSet(Some("*,x")) == {"*", "x"}
    ensures !SelectsAll(TrimmedSet(Some("*,x")))
  {
    var x := "x";
    TrimmedSetOfTwoKeys(Wildcard, x);
    assert Wildcard + [Separator] + x == "*,x";
    assert x != Wildcard by {
      assert x[0] != Wildcard[0];
    }
    assert x !in {Wildcard};
  }

  lemma ExampleNothingSelected()
    ensures !SelectsAll(TrimmedSet(Some("")))
    ensures !SelectsAll(TrimmedSet(None))
  {
    TrimmedSetOfBlank("");
  }
}
