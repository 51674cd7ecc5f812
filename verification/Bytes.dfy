/** Byte strings and the few library operations on them that the modules share.
    A byte is modelled as the character of the same code (latin-1). */
module Bytes {

  datatype Option<+T> = None | Some(value: T)

  datatype Result<+T, +E> = Ok(value: T) | Err(error: E)

  predicate OccursAt(s: string, pat: string, i: int) {
    0 <= i && i + |pat| <= |s| && s[i..i + |pat|] == pat
  }

  /** `bytes.find(pat, from)`: the first occurrence at or after `from`. */
  function Find(s: string, pat: string, from: nat): (r: Option<nat>)
    ensures r.Some? ==> from <= r.value && r.value + |pat| <= |s|
    decreases |s| - from
  {
    if from + |pat| > |s| then None
    else if OccursAt(s, pat, from) then Some(from)
    else Find(s, pat, from + 1)
  }

  predicate NoneIn(s: string, pat: string, from: int, to: int) {
    forall j :: from <= j < to ==> !OccursAt(s, pat, j)
  }

  lemma {:induction false} FindMeans(s: string, pat: string, from: nat)
    ensures match Find(s, pat, from)
            case Some(i) => OccursAt(s, pat, i) && NoneIn(s, pat, from, i)
            case None => NoneIn(s, pat, from, |s| + 1)
    decreases |s| - from
  {
    hide OccursAt;
    if from + |pat| > |s| {
      forall j | from <= j < |s| + 1 ensures !OccursAt(s, pat, j) { TooLate(s, pat, j); }
    } else if !OccursAt(s, pat, from) {
      FindMeans(s, pat, from + 1);
    }
  }

  lemma TooLate(s: string, pat: string, j: int)
    requires j + |pat| > |s|
    ensures !OccursAt(s, pat, j)
  {
  }

  /** The least occurrence determines the result of a search. */
  lemma FindIs(s: string, pat: string, from: nat, i: nat)
    requires from <= i && OccursAt(s, pat, i) && NoneIn(s, pat, from, i)
    ensures Find(s, pat, from) == Some(i)
  {
    if i + |pat| > |s| { TooLate(s, pat, i); }
    hide OccursAt;
    FindMeans(s, pat, from);
  }

  lemma FindNone(s: string, pat: string, from: nat)
    requires NoneIn(s, pat, from, |s| - |pat| + 1)
    ensures Find(s, pat, from) == None
  {
    FindMeans(s, pat, from);
  }

  /** Finding the pattern is stable when the string grows on the right. */
  lemma FindExtends(s: string, x: string, pat: string, from: nat)
    requires Find(s, pat, from).Some?
    ensures Find(s + x, pat, from) == Find(s, pat, from)
  {
    hide OccursAt, Find;
    FindMeans(s, pat, from);
    var r := Find(s, pat, from).value;
    forall j | from <= j <= r ensures OccursAt(s + x, pat, j) <==> OccursAt(s, pat, j) {
      OccursExtends(s, x, pat, j);
    }
    FindIs(s + x, pat, from, r);
  }

  lemma OccursExtends(s: string, x: string, pat: string, i: int)
    ensures i + |pat| <= |s| ==> (OccursAt(s + x, pat, i) <==> OccursAt(s, pat, i))
  {
    if 0 <= i && i + |pat| <= |s| {
      assert (s + x)[i..i + |pat|] == s[i..i + |pat|];
    }
  }

  lemma SliceExtends(s: string, x: string, i: nat, j: nat)
    requires i <= j <= |s|
    ensures (s + x)[i..j] == s[i..j] && (s + x)[j..] == s[j..] + x
  {
  }

  function Join(chunks: seq<string>): string {
    if chunks == [] then "" else chunks[0] + Join(chunks[1..])
  }

  lemma {:induction false} JoinAppend(a: seq<string>, b: seq<string>)
    ensures Join(a + b) == Join(a) + Join(b)
  {
    if a == [] {
      assert a + b == b;
    } else {
      assert (a + b)[1..] == a[1..] + b;
      JoinAppend(a[1..], b);
    }
  }
}
