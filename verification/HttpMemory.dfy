/** C strings inside a buffer: reading them, and cutting them with a NUL. */
module HttpMemory {
  import opened HttpSpec
  import opened HttpRequest

  /** The C string t lies at p and ends, terminator included, before lim. */
  predicate Holds(b: string, p: nat, t: string, lim: nat) {
    && p + |t| < lim <= |b| && b[p + |t|] == NUL
    && forall i :: 0 <= i < |t| ==> b[p + i] == t[i] && t[i] != NUL
  }

  /** What is found at position i of a string: its next character, or the terminator. */
  lemma HoldsAt(b: string, p: nat, t: string, lim: nat, i: nat)
    requires Holds(b, p, t, lim) && p <= i <= p + |t|
    ensures if i == p + |t| then b[i] == NUL else b[i] == t[i - p] != NUL
  {
    if i < p + |t| {
      assert b[p + (i - p)] == t[i - p];
    }
  }

  /** Moving the pointer forward inside its string drops the characters passed. */
  lemma HoldsShift(b: string, p: nat, t: string, lim: nat, k: nat)
    requires Holds(b, p, t, lim) && k <= |t|
    ensures Holds(b, p + k, t[k..], lim)
  {
    var u := t[k..];
    forall i | 0 <= i < |u|
      ensures b[p + k + i] == u[i] && u[i] != NUL
    {
      assert b[p + (k + i)] == t[k + i];
    }
  }

  /** Writing a NUL over character k of a string splits it in two. */
  lemma HoldsCut(b: string, p: nat, t: string, lim: nat, k: nat, c: string)
    requires Holds(b, p, t, lim) && k < |t| && c == b[p + k := NUL]
    ensures Holds(c, p, t[..k], lim) && Holds(c, p + k + 1, t[k + 1..], lim)
  {
    HoldsShift(b, p, t, lim, k + 1);
  }

  /** A string does not notice writes outside it. */
  lemma HoldsFrame(b: string, c: string, p: nat, t: string, lim: nat, more: nat)
    requires |b| == |c| && lim <= more <= |b| && Holds(b, p, t, lim)
    requires forall i :: p <= i <= p + |t| ==> c[i] == b[i]
    ensures Holds(c, p, t, more)
  {}

  /** Only positions from lo up to hi may differ. */
  predicate Framed(b: string, c: string, lo: nat, hi: nat) {
    |b| == |c| && forall i :: 0 <= i < |b| && !(lo <= i < hi) ==> c[i] == b[i]
  }

  /** A line of the input, once its CR is overwritten, is held as a C string. */
  lemma LineHeld(b: string, p: nat, line: string)
    requires p + |line| < |b| && b[p + |line|] == NUL && forall i :: 0 <= i < |line| ==> b[p + i] == line[i]
    ensures Holds(b, p, CString(line), p + |line| + 1)
  {
    var n := Find(line, {NUL});
    Finds(line, {NUL});
    assert n < |line| ==> b[p + n] == line[n];
  }

  // ----- The saved pointers -----

  /** Every saved pointer points at its string, and all of them end before lim. */
  predicate Pinned(b: string, saved: map<Field, nat>, values: map<Field, string>, lim: nat) {
    && lim <= |b| && saved.Keys == values.Keys
    && forall f :: f in values ==> Holds(b, saved[f], values[f], lim)
  }

  /** Writes at or after lim do not disturb saved strings. */
  lemma PinnedFrame(b: string, c: string, saved: map<Field, nat>, values: map<Field, string>, lim: nat, more: nat)
    requires |b| == |c| && lim <= more <= |b| && Pinned(b, saved, values, lim)
    requires Framed(b, c, lim, more)
    ensures Pinned(c, saved, values, more)
  {
    forall f | f in values
      ensures Holds(c, saved[f], values[f], more)
    {
      HoldsFrame(b, c, saved[f], values[f], lim, more);
    }
  }

  lemma PinnedBelow(b: string, c: string, saved: map<Field, nat>, values: map<Field, string>, lim: nat)
    requires |b| == |c| && Pinned(b, saved, values, lim) && forall i :: 0 <= i < lim ==> c[i] == b[i]
    ensures Pinned(c, saved, values, lim)
  {
    forall f | f in values
      ensures Holds(c, saved[f], values[f], lim)
    {
      HoldsFrame(b, c, saved[f], values[f], lim, lim);
    }
  }

  lemma PinOne(b: string, saved: map<Field, nat>, values: map<Field, string>, f: Field, p: nat, t: string, lim: nat)
    requires Pinned(b, saved, values, lim) && Holds(b, p, t, lim)
    ensures Pinned(b, saved[f := p], values[f := t], lim)
  {}

  // ----- The library functions, walking the buffer -----

  /** strpbrk and strchr; -1 is the null pointer. */
  method FindFrom(buf: array<char>, p: nat, cs: set<char>, ghost t: string, ghost lim: nat) returns (i: int)
    requires Holds(buf[..], p, t, lim) && NUL !in cs
    ensures if Find(t, cs) == |t| then i == -1 else i == p + Find(t, cs)
  {
    i := p;
    Finds(t, cs);
    HoldsAt(buf[..], p, t, lim, i);
    while buf[i] != NUL && buf[i] !in cs
      invariant p <= i <= p + |t| && i - p <= Find(t, cs)
      invariant if i == p + |t| then buf[i] == NUL else buf[i] == t[i - p] != NUL
      decreases p + |t| - i
    {
      i := i + 1;
      HoldsAt(buf[..], p, t, lim, i);
    }
    if buf[i] == NUL {
      i := -1;
    }
  }

  /** *p = 0 for a character inside the string at from: afterwards there are two strings. */
  method CutAt(buf: array<char>, from: nat, p: nat, ghost t: string, ghost lim: nat) returns (next: nat)
    requires Holds(buf[..], from, t, lim) && from <= p < from + |t|
    modifies buf
    ensures buf[..] == old(buf[..])[p := NUL] && next == p + 1
    ensures Holds(buf[..], from, t[..p - from], lim) && Holds(buf[..], next, t[p - from + 1..], lim)
  {
    HoldsCut(buf[..], from, t, lim, p - from, buf[..][p := NUL]);
    buf[p] := NUL;
    next := p + 1;
  }

  /** p + strspn(p, " \t"). */
  method SkipFrom(buf: array<char>, p: nat, ghost t: string, ghost lim: nat) returns (q: nat)
    requires Holds(buf[..], p, t, lim)
    ensures p <= q && Holds(buf[..], q, SkipBlanks(t), lim)
  {
    q := p;
    Spans(t, BLANKS);
    HoldsAt(buf[..], p, t, lim, q);
    while buf[q] in BLANKS
      invariant p <= q <= p + |t| && q - p <= Span(t, BLANKS)
      invariant if q == p + |t| then buf[q] == NUL else buf[q] == t[q - p] != NUL
      decreases p + |t| - q
    {
      q := q + 1;
      HoldsAt(buf[..], p, t, lim, q);
    }
    HoldsShift(buf[..], p, t, lim, q - p);
  }

  /** The characters of a C string. */
  method ReadString(buf: array<char>, p: nat, ghost t: string, ghost lim: nat) returns (s: string)
    requires Holds(buf[..], p, t, lim)
    ensures s == t
  {
    var i := p;
    s := "";
    HoldsAt(buf[..], p, t, lim, i);
    while buf[i] != NUL
      invariant p <= i <= p + |t| && s == t[..i - p]
      invariant if i == p + |t| then buf[i] == NUL else buf[i] == t[i - p] != NUL
      decreases p + |t| - i
    {
      s := s + [buf[i]];
      i := i + 1;
      HoldsAt(buf[..], p, t, lim, i);
    }
  }

  /** Cut the string at its first blank and step over the blanks that follow; -1 when there is none. */
  method SplitWord(buf: array<char>, p: nat, ghost t: string, ghost lim: nat) returns (next: int)
    requires Holds(buf[..], p, t, lim)
    modifies buf
    ensures Framed(old(buf[..]), buf[..], p, lim)
    ensures match Word(t)
      case None => next == -1
      case Some((word, rest)) =>
        next > p && Holds(buf[..], p, word, lim) && Holds(buf[..], next, SkipBlanks(rest), lim)
  {
    next := FindFrom(buf, p, BLANKS, t, lim);
    if next != -1 {
      next := CutAndSkip(buf, p, next, t, lim);
    }
  }

  /** strchr, and a NUL over what it finds; -1 when it finds nothing. */
  method CutFirst(buf: array<char>, p: nat, c: char, ghost t: string, ghost lim: nat) returns (next: int)
    requires Holds(buf[..], p, t, lim) && c != NUL
    modifies buf
    ensures Framed(old(buf[..]), buf[..], p, lim)
    ensures var k := Find(t, {c});
      if k == |t| then next == -1
      else next > p && Holds(buf[..], p, t[..k], lim) && Holds(buf[..], next, t[k + 1..], lim)
  {
    next := FindFrom(buf, p, {c}, t, lim);
    if next != -1 {
      next := CutAt(buf, p, next, t, lim);
    }
  }

  method CutAndSkip(buf: array<char>, from: nat, p: nat, ghost t: string, ghost lim: nat) returns (next: nat)
    requires Holds(buf[..], from, t, lim) && from <= p < from + |t|
    modifies buf
    ensures Framed(old(buf[..]), buf[..], p, p + 1) && next > p
    ensures Holds(buf[..], from, t[..p - from], lim) && Holds(buf[..], next, SkipBlanks(t[p - from + 1..]), lim)
  {
    next := CutAt(buf, from, p, t, lim);
    next := SkipFrom(buf, next, t[p - from + 1..], lim);
  }

  /** The path of an absolute target; -1 when there is none. */
  method FindPath(buf: array<char>, p: nat, ghost t: string, ghost lim: nat) returns (path: int)
    requires Holds(buf[..], p, t, lim)
    ensures match PathOf(t)
      case None => path == -1
      case Some(v) => path >= p && Holds(buf[..], path, v, lim)
  {
    var url := ReadString(buf, p, t, lim);
    if !StartsIgnoringCase(url, "http://") {
      return -1;
    }
    HoldsShift(buf[..], p, t, lim, 7);
    path := FindFrom(buf, p + 7, {'/'}, t[7..], lim);
    if path != -1 {
      HoldsShift(buf[..], p + 7, t[7..], lim, path - (p + 7));
    }
  }
}
