/** Replacing secrets in log lines, and when nothing of them is left. */
module Redaction {

  const MARK := "[REDACTED]"
  const MARK_TEXT := "REDACTED"

  predicate OccursAt(part: string, s: string, i: nat) {
    i <= |s| && part <= s[i..]
  }

  ghost predicate Occurs(part: string, s: string) {
    exists i: nat :: OccursAt(part, s, i)
  }

  /** strings.ReplaceAll(s, secret, MARK) for a non-empty secret: leftmost, without overlaps. */
  function ReplaceAll(s: string, secret: string): string
    requires secret != ""
    decreases |s|
  {
    if s == "" then ""
    else if secret <= s then MARK + ReplaceAll(s[|secret|..], secret)
    else [s[0]] + ReplaceAll(s[1..], secret)
  }

  predicate NonEmpty(secrets: seq<string>) {
    forall i :: 0 <= i < |secrets| ==> secrets[i] != ""
  }

  /** The secrets one after another, in their order. */
  function Redact(line: string, secrets: seq<string>): string
    requires NonEmpty(secrets)
    decreases |secrets|
  {
    if secrets == [] then line else Redact(ReplaceAll(line, secrets[0]), secrets[1..])
  }

  // ---------------------------------------------------------------- what is replaced, and what is kept

  /** The pieces with `mark` between them. */
  function Between(pieces: seq<string>, mark: string): string
    requires pieces != []
  {
    if |pieces| == 1 then pieces[0] else pieces[0] + (mark + Between(pieces[1..], mark))
  }

  /** After each piece the secret is found there and not earlier; in the last one it is not found. */
  ghost predicate CutBy(pieces: seq<string>, secret: string) {
    && pieces != [] && !Occurs(secret, pieces[|pieces| - 1])
    && forall i, j: nat :: 0 <= i < |pieces| - 1 && j < |pieces[i]| ==> !OccursAt(secret, pieces[i] + secret, j)
  }

  lemma CutHere(pieces: seq<string>, secret: string)
    requires CutBy(pieces, secret)
    ensures CutBy([""] + pieces, secret)
    ensures forall mark :: Between([""] + pieces, mark) == mark + Between(pieces, mark)
  {
    var more := [""] + pieces;
    assert more[1..] == pieces;
    forall i, j: nat | 0 <= i < |more| - 1 && j < |more[i]|
      ensures !OccursAt(secret, more[i] + secret, j)
    {
      assert more[i] == pieces[i - 1];
    }
    forall mark
      ensures Between(more, mark) == mark + Between(pieces, mark)
    {
      assert "" + (mark + Between(pieces, mark)) == mark + Between(pieces, mark);
    }
  }

  lemma LongerFirst(c: char, pieces: seq<string>, mark: string)
    requires pieces != []
    ensures Between([[c] + pieces[0]] + pieces[1..], mark) == [c] + Between(pieces, mark)
  {
    var more := [[c] + pieces[0]] + pieces[1..];
    assert more[1..] == pieces[1..];
    if |pieces| > 1 {
      var rest := mark + Between(pieces[1..], mark);
      assert [c] + pieces[0] + rest == [c] + (pieces[0] + rest);
    }
  }

  lemma NotEarlier(c: char, piece: string, rest: string, secret: string, j: nat)
    requires j <= |piece| && !(secret <= [c] + (piece + (secret + rest)))
    requires j > 0 ==> !OccursAt(secret, piece + secret, j - 1)
    ensures !OccursAt(secret, [c] + piece + secret, j)
  {
    var s := [c] + piece + secret;
    if j == 0 {
      assert [c] + (piece + (secret + rest)) == s + rest && s[0..] == s;
      assert secret <= s ==> secret <= s + rest;
    } else {
      assert s[j..] == (piece + secret)[j - 1..];
    }
  }

  lemma CutLater(c: char, pieces: seq<string>, secret: string)
    requires CutBy(pieces, secret) && !(secret <= [c] + Between(pieces, secret))
    ensures CutBy([[c] + pieces[0]] + pieces[1..], secret)
  {
    var more := [[c] + pieces[0]] + pieces[1..];
    if |pieces| == 1 {
      var last := [c] + pieces[0];
      forall i: nat
        ensures !OccursAt(secret, last, i)
      {
        if 0 < i <= |last| {
          assert last[i..] == pieces[0][i - 1..];
          assert !OccursAt(secret, pieces[0], i - 1);
        }
      }
    } else {
      forall i, j: nat | 0 <= i < |more| - 1 && j < |more[i]|
        ensures !OccursAt(secret, more[i] + secret, j)
      {
        if i == 0 {
          NotEarlier(c, pieces[0], Between(pieces[1..], secret), secret, j);
        } else {
          assert more[i] == pieces[i];
        }
      }
    }
  }

  /** `s` is the pieces with the secret between them, and `r` the same pieces with the mark instead. */
  ghost predicate Replaces(pieces: seq<string>, s: string, secret: string, r: string) {
    CutBy(pieces, secret) && s == Between(pieces, secret) && r == Between(pieces, MARK)
  }

  lemma ReplacesHere(pieces: seq<string>, s: string, secret: string, r: string)
    requires Replaces(pieces, s, secret, r)
    ensures Replaces([""] + pieces, secret + s, secret, MARK + r)
  {
    CutHere(pieces, secret);
  }

  lemma ReplacesLater(c: char, pieces: seq<string>, s: string, secret: string, r: string)
    requires Replaces(pieces, s, secret, r) && !(secret <= [c] + s)
    ensures Replaces([[c] + pieces[0]] + pieces[1..], [c] + s, secret, [c] + r)
  {
    CutLater(c, pieces, secret);
    LongerFirst(c, pieces, secret);
    LongerFirst(c, pieces, MARK);
  }

  /** Every line falls into pieces around the secret, found from the left; only the secret is replaced. */
  lemma {:induction false} OnlySecretsReplaced(s: string, secret: string) returns (pieces: seq<string>)
    requires secret != ""
    ensures Replaces(pieces, s, secret, ReplaceAll(s, secret))
    decreases |s|
  {
    if s == "" {
      pieces := [""];
      assert forall i: nat :: !OccursAt(secret, "", i);
    } else if secret <= s {
      var tail := s[|secret|..];
      var rest := OnlySecretsReplaced(tail, secret);
      ReplacesHere(rest, tail, secret, ReplaceAll(tail, secret));
      assert s == secret + tail;
      pieces := [""] + rest;
    } else {
      var tail := s[1..];
      var rest := OnlySecretsReplaced(tail, secret);
      assert s == [s[0]] + tail;
      ReplacesLater(s[0], rest, tail, secret, ReplaceAll(tail, secret));
      pieces := [[s[0]] + rest[0]] + rest[1..];
    }
  }

  /** A line that shows no secret is logged as it is. */
  lemma {:induction false} NothingToRedact(line: string, secrets: seq<string>)
    requires NonEmpty(secrets) && forall k :: 0 <= k < |secrets| ==> !Occurs(secrets[k], line)
    ensures Redact(line, secrets) == line
    decreases |secrets|
  {
    if secrets != [] {
      NothingToReplace(line, secrets[0]);
      NothingToRedact(line, secrets[1..]);
    }
  }

  lemma {:induction false} NothingToReplace(s: string, secret: string)
    requires secret != "" && !Occurs(secret, s)
    ensures ReplaceAll(s, secret) == s
    decreases |s|
  {
    if s != "" {
      assert s[0..] == s && !OccursAt(secret, s, 0);
      SuffixClear(s, 1, "", secret);
      NothingToReplace(s[1..], secret);
    }
  }

  // ---------------------------------------------------------------- what makes a secret safe

  predicate Comparable(a: string, b: string) {
    a <= b || b <= a
  }

  /** Laid over the mark at some offset, the secret agrees with it wherever they meet. */
  ghost predicate Overlaps(secret: string) {
    || (exists k :: 0 <= k < |secret| && Comparable(secret[k..], MARK))
    || (exists k :: 0 <= k < |MARK| && Comparable(secret, MARK[k..]))
  }

  predicate BracketFree(s: string) {
    '[' !in s && ']' !in s
  }

  lemma PrefixComparable(q: string, a: string, b: string)
    requires q <= a + b
    ensures Comparable(q, a)
  {
    if |q| <= |a| {
      assert q == (a + b)[..|q|] == a[..|q|];
    } else {
      assert a == (a + b)[..|a|] == q[..|a|];
    }
  }

  /** What a safe secret finds at the start of redacted text, it would have found in the text itself. */
  lemma {:induction false} PrefixSurvives(s: string, secret: string, q: string, k: nat)
    requires secret != "" && !Overlaps(q) && k <= |q| && q[k..] <= ReplaceAll(s, secret)
    ensures q[k..] <= s
    decreases |s|
  {
    if s != "" && k < |q| {
      if secret <= s {
        PrefixComparable(q[k..], MARK, ReplaceAll(s[|secret|..], secret));
        assert false;
      } else {
        assert q[k] == s[0] && q[k + 1..] == q[k..][1..];
        PrefixSurvives(s[1..], secret, q, k + 1);
        assert s == [s[0]] + s[1..] && q[k..] == [q[k]] + q[k + 1..];
      }
    }
  }

  lemma NotInMark(rest: string, q: string, i: nat)
    requires !Overlaps(q) && i < |MARK|
    ensures !OccursAt(q, MARK + rest, i)
  {
    var tail := MARK[i..];
    assert (MARK + rest)[i..] == tail + rest;
    if q <= tail + rest {
      PrefixComparable(q, tail, rest);
    }
  }

  /** Replacing one secret removes it, and brings back no other. */
  lemma {:induction false} ReplaceClears(s: string, secret: string, q: string)
    requires secret != "" && q != "" && !Overlaps(q) && (q == secret || !Occurs(q, s))
    ensures !Occurs(q, ReplaceAll(s, secret))
    decreases |s|
  {
    var r := ReplaceAll(s, secret);
    if s != "" {
      var step := if secret <= s then |secret| else 1;
      var head := if secret <= s then MARK else [s[0]];
      var rest := ReplaceAll(s[step..], secret);
      assert r == head + rest;
      SuffixClear(s, step, secret, q);
      ReplaceClears(s[step..], secret, q);
      forall i: nat | i <= |r|
        ensures !OccursAt(q, r, i)
      {
        if i >= |head| {
          assert r[i..] == rest[i - |head|..];
          assert !OccursAt(q, rest, i - |head|);
        } else if secret <= s {
          NotInMark(rest, q, i);
        } else {
          NotAtStart(s, secret, q);
        }
      }
    }
  }

  lemma SuffixClear(s: string, step: nat, secret: string, q: string)
    requires step <= |s| && (q == secret || !Occurs(q, s))
    ensures q == secret || !Occurs(q, s[step..])
  {
    if q != secret && Occurs(q, s[step..]) {
      var i: nat :| OccursAt(q, s[step..], i);
      assert s[step..][i..] == s[step + i..];
      assert OccursAt(q, s, step + i);
    }
  }

  lemma NotAtStart(s: string, secret: string, q: string)
    requires secret != "" && !Overlaps(q) && (q == secret || !Occurs(q, s)) && !(secret <= s)
    ensures !OccursAt(q, ReplaceAll(s, secret), 0)
  {
    assert q[0..] == q && s[0..] == s;
    assert OccursAt(q, s, 0) <==> q <= s;
    if q <= ReplaceAll(s, secret) {
      PrefixSurvives(s, secret, q, 0);
    }
  }

  ghost predicate NoneOverlaps(secrets: seq<string>) {
    forall i :: 0 <= i < |secrets| ==> !Overlaps(secrets[i])
  }

  lemma {:induction false} StaysClear(line: string, secrets: seq<string>, q: string)
    requires NonEmpty(secrets) && q != "" && !Overlaps(q) && !Occurs(q, line)
    ensures !Occurs(q, Redact(line, secrets))
    decreases |secrets|
  {
    if secrets != [] {
      ReplaceClears(line, secrets[0], q);
      StaysClear(ReplaceAll(line, secrets[0]), secrets[1..], q);
    }
  }

  /** Whatever the line, no secret is left, if none of them fits over the mark at any offset. */
  lemma {:induction false} RedactHidesAll(line: string, secrets: seq<string>, k: nat)
    requires NonEmpty(secrets) && NoneOverlaps(secrets) && k < |secrets|
    ensures !Occurs(secrets[k], Redact(line, secrets))
    decreases |secrets|
  {
    var next := ReplaceAll(line, secrets[0]);
    if k == 0 {
      ReplaceClears(line, secrets[0], secrets[0]);
      StaysClear(next, secrets[1..], secrets[0]);
    } else {
      RedactHidesAll(next, secrets[1..], k - 1);
    }
  }

  // ---------------------------------------------------------------- bracket-free secrets, exactly

  lemma OverlapsMarkText(q: string)
    requires q != "" && BracketFree(q)
    ensures Overlaps(q) ==> Occurs(q, MARK_TEXT)
  {
    if Overlaps(q) {
      assert forall k :: 0 <= k < |q| ==> q[k..][0] == q[k];
      assert MARK[0] == '[';
      var k :| 0 <= k < |MARK| && Comparable(q, MARK[k..]);
      InMarkText(q, k);
    }
  }

  lemma InMarkText(q: string, k: nat)
    requires q != "" && BracketFree(q) && k < |MARK| && Comparable(q, MARK[k..])
    ensures Occurs(q, MARK_TEXT)
  {
    assert MARK[0] == '[' && MARK[9] == ']' && MARK == "[" + MARK_TEXT + "]";
    assert MARK[k..][|MARK| - 1 - k] == ']' && MARK[k..][0] == MARK[k];
    assert k >= 1 && q <= MARK[k..] && |q| <= |MARK| - 1 - k;
    assert MARK_TEXT[k - 1..] == MARK[k..|MARK| - 1];
    assert OccursAt(q, MARK_TEXT, k - 1);
  }

  lemma OccursWithin(part: string, whole: string, s: string)
    requires Occurs(part, whole) && Occurs(whole, s)
    ensures Occurs(part, s)
  {
    var i: nat :| OccursAt(part, whole, i);
    var j: nat :| OccursAt(whole, s, j);
    assert s[j..][..|whole|] == whole;
    assert s[j + i..] == s[j..][i..];
    assert whole[i..] <= s[j..][i..];
    assert OccursAt(part, s, j + i);
  }

  lemma {:induction false} MarkStays(s: string, secret: string)
    requires secret != ""
    ensures ReplaceAll(s, secret) == s || Occurs(MARK, ReplaceAll(s, secret))
    decreases |s|
  {
    if s != "" {
      var r := ReplaceAll(s, secret);
      if secret <= s {
        assert r[0..] == r && MARK <= r;
        assert OccursAt(MARK, r, 0);
      } else {
        MarkStays(s[1..], secret);
        var rest := ReplaceAll(s[1..], secret);
        assert s == [s[0]] + s[1..] && r == [s[0]] + rest;
        if rest != s[1..] {
          var i: nat :| OccursAt(MARK, rest, i);
          assert r[i + 1..] == rest[i..];
          assert OccursAt(MARK, r, i + 1);
        }
      }
    }
  }

  lemma {:induction false} MarkRemains(line: string, secrets: seq<string>)
    requires NonEmpty(secrets) && Occurs(MARK, line)
    ensures Occurs(MARK, Redact(line, secrets))
    decreases |secrets|
  {
    if secrets != [] {
      MarkStays(line, secrets[0]);
      MarkRemains(ReplaceAll(line, secrets[0]), secrets[1..]);
    }
  }

  ghost predicate Hides(line: string, secrets: seq<string>)
    requires NonEmpty(secrets)
  {
    forall k :: 0 <= k < |secrets| ==> !Occurs(secrets[k], Redact(line, secrets))
  }

  /** The concrete leak: a line that is the mark itself shows every secret that is part of the mark's text. */
  lemma MarkLeaks(secrets: seq<string>, k: nat)
    requires NonEmpty(secrets) && k < |secrets| && Occurs(secrets[k], MARK_TEXT)
    ensures Occurs(secrets[k], Redact(MARK, secrets))
  {
    TextInMark();
    MarkRemains(MARK, secrets);
    OccursWithin(secrets[k], MARK_TEXT, MARK);
    OccursWithin(secrets[k], MARK, Redact(MARK, secrets));
  }

  lemma TextInMark()
    ensures Occurs(MARK, MARK) && Occurs(MARK_TEXT, MARK)
  {
    assert MARK[0..] == MARK && OccursAt(MARK, MARK, 0);
    assert MARK[1..] == MARK_TEXT + "]";
    assert OccursAt(MARK_TEXT, MARK, 1);
  }

  /** For non-empty secrets without brackets: every line is safe if and only if no secret is part of the mark's text. */
  lemma RedactionTheorem(secrets: seq<string>)
    requires NonEmpty(secrets) && forall k :: 0 <= k < |secrets| ==> BracketFree(secrets[k])
    ensures (forall line :: Hides(line, secrets)) <==>
      (forall k :: 0 <= k < |secrets| ==> !Occurs(secrets[k], MARK_TEXT))
  {
    if forall k :: 0 <= k < |secrets| ==> !Occurs(secrets[k], MARK_TEXT) {
      forall k | 0 <= k < |secrets|
        ensures !Overlaps(secrets[k])
      {
        OverlapsMarkText(secrets[k]);
      }
      forall line
        ensures Hides(line, secrets)
      {
        forall k | 0 <= k < |secrets|
          ensures !Occurs(secrets[k], Redact(line, secrets))
        {
          RedactHidesAll(line, secrets, k);
        }
      }
    } else {
      var k :| 0 <= k < |secrets| && Occurs(secrets[k], MARK_TEXT);
      MarkLeaks(secrets, k);
      assert !Hides(MARK, secrets);
    }
  }

  // ---------------------------------------------------------------- any one secret, exactly

  /** With its first `k` characters before it, the secret is found there and not earlier. */
  ghost predicate FoundLate(p: string, k: nat) {
    k <= |p| && forall i: nat :: i < k ==> !OccursAt(p, p[..k] + p, i)
  }

  /** The secret begins inside a mark, or ends inside one that follows text which is kept. */
  ghost predicate Leaky(p: string) {
    || (exists m :: 0 <= m < |MARK| && Comparable(p, MARK[m..]))
    || (exists k :: 0 < k < |p| && Comparable(p[k..], MARK) && FoundLate(p, k))
  }

  lemma FoundWhereKept(s: string, p: string, k: nat)
    requires k <= |p| && k <= |s| && p[..k] == s[..k] && p <= s[k..]
    requires forall i: nat :: i < k ==> !(p <= s[i..])
    ensures FoundLate(p, k)
  {
    assert p[..k] + p <= s by {
      assert s == s[..k] + s[k..];
    }
    forall i: nat | i < k
      ensures !OccursAt(p, p[..k] + p, i)
    {
      assert (p[..k] + p)[i..] <= s[i..];
    }
  }

  /** The text is `x + rest`, the secret `x + q`, and the secret is not found before `rest`. */
  ghost predicate Reading(s: string, p: string, x: string, rest: string, q: string) {
    s == x + rest && p == x + q && forall i: nat :: i < |x| ==> !(p <= s[i..])
  }

  lemma KeptMeetsMark(s: string, p: string, x: string, rest: string, q: string)
    requires Reading(s, p, x, rest, q) && x != "" && q != "" && p <= rest && q <= ReplaceAll(rest, p)
    ensures Leaky(p)
  {
    var k := |x|;
    PrefixComparable(q, MARK, ReplaceAll(rest[|p|..], p));
    assert p[..k] == x == s[..k] && p[k..] == q && s[k..] == rest;
    FoundWhereKept(s, p, k);
  }

  lemma PrefixTail(q: string, c: char, r: string)
    requires q != "" && q <= [c] + r
    ensures q[0] == c && q[1..] <= r
  {
    assert ([c] + r)[1..] == r;
  }

  lemma KeptTail(rest: string, p: string, q: string)
    requires p != "" && rest != "" && !(p <= rest) && q != "" && q <= ReplaceAll(rest, p)
    ensures q[0] == rest[0] && q[1..] <= ReplaceAll(rest[1..], p)
  {
    PrefixTail(q, rest[0], ReplaceAll(rest[1..], p));
  }

  lemma ReadOn(s: string, p: string, x: string, rest: string, q: string)
    requires Reading(s, p, x, rest, q) && rest != "" && q != "" && q[0] == rest[0] && !(p <= rest)
    ensures Reading(s, p, x + [q[0]], rest[1..], q[1..])
  {
    assert s[|x|..] == rest;
    assert q == [q[0]] + q[1..] && rest == [rest[0]] + rest[1..];
  }

  /** A secret that is not leaky, read from kept text on, stands in the text itself. */
  lemma {:induction false} KeptSurvives(s: string, p: string, x: string, rest: string, q: string)
    requires p != "" && !Leaky(p) && Reading(s, p, x, rest, q) && q <= ReplaceAll(rest, p)
    ensures p <= s
    decreases |rest|
  {
    if q == "" {
      assert p == x;
    } else if rest != "" {
      if !(p <= rest) {
        KeptTail(rest, p, q);
        ReadOn(s, p, x, rest, q);
        KeptSurvives(s, p, x + [q[0]], rest[1..], q[1..]);
      } else if x == "" {
        assert s == rest;
      } else {
        KeptMeetsMark(s, p, x, rest, q);
      }
    }
  }

  lemma NotInMarkEither(rest: string, p: string, i: nat)
    requires !Leaky(p) && i < |MARK|
    ensures !OccursAt(p, MARK + rest, i)
  {
    var tail := MARK[i..];
    assert (MARK + rest)[i..] == tail + rest;
    if p <= tail + rest {
      PrefixComparable(p, tail, rest);
    }
  }

  lemma {:induction false} NotLeakyHides(s: string, p: string)
    requires p != "" && !Leaky(p)
    ensures !Occurs(p, ReplaceAll(s, p))
    decreases |s|
  {
    if s != "" {
      var r := ReplaceAll(s, p);
      var step := if p <= s then |p| else 1;
      var head := if p <= s then MARK else [s[0]];
      var rest := ReplaceAll(s[step..], p);
      NotLeakyHides(s[step..], p);
      if !(p <= s) && p <= r {
        assert "" + s == s && "" + p == p;
        KeptSurvives(s, p, "", s, p);
      }
      forall i: nat | i <= |r|
        ensures !OccursAt(p, r, i)
      {
        if i >= |head| {
          assert r[i..] == rest[i - |head|..];
          assert !OccursAt(p, rest, i - |head|);
        } else if p <= s {
          NotInMarkEither(rest, p, i);
        } else {
          assert r[0..] == r;
        }
      }
    }
  }

  lemma {:induction false} ShorterIsKept(z: string, p: string)
    requires |z| < |p|
    ensures ReplaceAll(z, p) == z
  {
    if z != "" {
      ShorterIsKept(z[1..], p);
    }
  }

  /** Text is kept up to where the secret is found. */
  lemma {:induction false} KeepsUpTo(x: string, p: string, z: string)
    requires p != "" && forall i: nat :: i < |x| ==> !(p <= (x + (p + z))[i..])
    ensures ReplaceAll(x + (p + z), p) == x + (MARK + ReplaceAll(z, p))
  {
    var s := x + (p + z);
    if x == "" {
      assert s == p + z && s[|p|..] == z;
    } else {
      assert s[0..] == s && s[1..] == x[1..] + (p + z);
      forall i: nat | i < |x| - 1
        ensures !(p <= (x[1..] + (p + z))[i..])
      {
        assert s[1..][i..] == s[i + 1..];
      }
      KeepsUpTo(x[1..], p, z);
      assert x == [x[0]] + x[1..];
    }
  }

  lemma AloneLeaks(p: string, z: string)
    requires p != "" && ReplaceAll(z, p) == z
    ensures ReplaceAll(p + z, p) == MARK + z
  {
    assert (p + z)[|p|..] == z;
  }

  /** A secret that is part of the mark shows in the line that is the secret itself. */
  lemma WithinLeaks(p: string, m: nat)
    requires p != "" && m < |MARK| && p <= MARK[m..]
    ensures Occurs(p, ReplaceAll(p + "", p))
  {
    AloneLeaks(p, "");
    assert MARK + "" == MARK;
    assert OccursAt(p, MARK, m);
  }

  /** A secret that begins with the end of the mark shows if the rest of it follows. */
  lemma BeyondLeaks(p: string, m: nat)
    requires p != "" && m < |MARK| && MARK[m..] <= p
    ensures Occurs(p, ReplaceAll(p + p[|MARK| - m..], p))
  {
    var tail := MARK[m..];
    var z := p[|tail|..];
    ShorterIsKept(z, p);
    AloneLeaks(p, z);
    assert p == tail + z;
    EndsWith(MARK, m, z);
  }

  lemma EndsWith(mark: string, m: nat, z: string)
    requires m < |mark|
    ensures Occurs(mark[m..] + z, mark + z)
  {
    assert (mark + z)[m..] == mark[m..] + z;
    assert OccursAt(mark[m..] + z, mark + z, m);
  }

  lemma InsideLeaks(p: string, m: nat) returns (line: string)
    requires p != "" && m < |MARK| && Comparable(p, MARK[m..])
    ensures Occurs(p, ReplaceAll(line, p))
  {
    if p <= MARK[m..] {
      WithinLeaks(p, m);
      line := p + "";
    } else {
      BeyondLeaks(p, m);
      line := p + p[|MARK| - m..];
    }
  }

  lemma FoundLateKeeps(p: string, k: nat, z: string)
    requires FoundLate(p, k)
    ensures forall i: nat :: i < k ==> !(p <= (p[..k] + (p + z))[i..])
  {
    var a := p[..k] + p;
    assert p[..k] + (p + z) == a + z;
    forall i: nat | i < k
      ensures !(p <= (p[..k] + (p + z))[i..])
    {
      assert !OccursAt(p, a, i);
      var b := a[i..];
      assert (a + z)[i..] == b + z;
      NotOfLonger(p, b, z);
    }
  }

  lemma NotOfLonger(p: string, a: string, b: string)
    requires !(p <= a) && |p| <= |a|
    ensures !(p <= a + b)
  {
    assert (a + b)[..|p|] == a[..|p|];
  }

  lemma BeforeLeaks(p: string, k: nat) returns (line: string)
    requires 0 < k < |p| && Comparable(p[k..], MARK) && FoundLate(p, k)
    ensures Occurs(p, ReplaceAll(line, p))
  {
    var x, y := p[..k], p[k..];
    var z := if y <= MARK then "" else y[|MARK|..];
    line := x + (p + z);
    FoundLateKeeps(p, k, z);
    KeepsUpTo(x, p, z);
    ShorterIsKept(z, p);
    assert p == x + y;
    StartsWith(x, y, MARK + z);
  }

  lemma StartsWith(x: string, y: string, rest: string)
    requires y <= rest
    ensures Occurs(x + y, x + rest)
  {
    var r := x + rest;
    assert r[..|x| + |y|] == x + rest[..|y|];
    assert r[0..] == r && OccursAt(x + y, r, 0);
  }

  /** For every single secret, brackets or not: every line is safe if and only if the secret is not leaky. */
  lemma OneSecretTheorem(p: string)
    requires p != ""
    ensures (forall line :: !Shows(line, p)) <==> !Leaky(p)
  {
    if !Leaky(p) {
      forall line
        ensures !Shows(line, p)
      {
        NotLeakyHides(line, p);
      }
    } else {
      var line := LeakyLeaks(p);
      assert Shows(line, p);
    }
  }

  /** The secret is left in the redacted line. */
  ghost predicate Shows(line: string, p: string)
    requires p != ""
  {
    Occurs(p, ReplaceAll(line, p))
  }

  lemma LeakyLeaks(p: string) returns (line: string)
    requires p != "" && Leaky(p)
    ensures Occurs(p, ReplaceAll(line, p))
  {
    if m :| 0 <= m < |MARK| && Comparable(p, MARK[m..]) {
      line := InsideLeaks(p, m);
    } else {
      var k :| 0 < k < |p| && Comparable(p[k..], MARK) && FoundLate(p, k);
      line := BeforeLeaks(p, k);
    }
  }

  /** Fitting over the mark is not enough to leak: two opening brackets fit, and no line shows them. */
  lemma OverlapMayBeSafe(line: string)
    ensures Overlaps("[[") && !Occurs("[[", ReplaceAll(line, "[["))
  {
    var p := "[[";
    assert p[1..] == "[" && "[" <= MARK;
    assert Comparable(p[1..], MARK);
    assert p[..1] + p == "[[[" && "[[["[0..] == "[[[" && OccursAt(p, p[..1] + p, 0);
    assert !FoundLate(p, 1);
    forall m | 0 <= m < |MARK|
      ensures !Comparable(p, MARK[m..])
    {
      assert MARK[m..][0] == MARK[m];
      assert m + 1 < |MARK| ==> MARK[m..][1] == MARK[m + 1];
    }
    NotLeakyHides(line, p);
  }
}
