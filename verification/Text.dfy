/** Texts ordered the way the program's maps and sorts order them. */
module Text {
  import opened Prelude

  predicate Less(a: string, b: string) {
    if b == [] then false
    else if a == [] then true
    else a[0] < b[0] || (a[0] == b[0] && Less(a[1..], b[1..]))
  }

  /** Nothing comes before something. */
  predicate LessOption(a: Option<string>, b: Option<string>) {
    b.Some? && (a.None? || Less(a.value, b.value))
  }

  lemma NothingIsLeast(a: Option<string>, b: Option<string>)
    ensures LessOption(a, b) <==> (a.None? && b.Some?) || (a.Some? && b.Some? && Less(a.value, b.value))
  {
  }

  lemma {:induction false} LessTotal(a: string, b: string)
    ensures Less(a, b) || Less(b, a) || a == b
    ensures !(Less(a, b) && Less(b, a)) && !Less(a, a)
  {
    if a != [] {
      if b != [] && a[0] == b[0] {
        LessTotal(a[1..], b[1..]);
        assert a == [a[0]] + a[1..] && b == [b[0]] + b[1..];
      }
      LessIrreflexive(a);
    }
  }

  lemma {:induction false} LessIrreflexive(a: string)
    ensures !Less(a, a)
  {
    if a != [] {
      LessIrreflexive(a[1..]);
    }
  }

  lemma {:induction false} LessTransitive(a: string, b: string, c: string)
    requires Less(a, b) && Less(b, c)
    ensures Less(a, c)
  {
    if a != [] && a[0] == b[0] == c[0] {
      LessTransitive(a[1..], b[1..], c[1..]);
    }
  }

  /** The first `i` characters are the same, and the next of `a` comes before that of `b`, or is not there. */
  ghost predicate DiffersAt(a: string, b: string, i: nat) {
    i <= |a| && i < |b| && a[..i] == b[..i] && (i < |a| ==> a[i] < b[i])
  }

  /** A text comes before another where they first differ, and before what it is the beginning of. */
  lemma {:induction false} LessIsFirstDifference(a: string, b: string)
    ensures Less(a, b) <==> exists i: nat :: DiffersAt(a, b, i)
  {
    if a == [] || b == [] || a[0] != b[0] {
      assert b != [] && (a == [] || a[0] < b[0]) ==> DiffersAt(a, b, 0);
    } else {
      LessIsFirstDifference(a[1..], b[1..]);
      forall i: nat
        ensures DiffersAt(a[1..], b[1..], i) <==> DiffersAt(a, b, i + 1)
      {
        RestDiffers(a, b, i);
      }
      if exists i: nat :: DiffersAt(a, b, i) {
        var i: nat :| DiffersAt(a, b, i);
        assert DiffersAt(a[1..], b[1..], i - 1);
      }
    }
  }

  lemma RestDiffers(a: string, b: string, i: nat)
    requires a != [] && b != [] && a[0] == b[0]
    ensures DiffersAt(a[1..], b[1..], i) <==> DiffersAt(a, b, i + 1)
  {
    if i + 1 <= |a| && i + 1 <= |b| {
      assert a[..i + 1] == [a[0]] + a[1..][..i] && b[..i + 1] == [b[0]] + b[1..][..i];
    }
  }

  lemma LessOptionTotal(a: Option<string>, b: Option<string>)
    ensures LessOption(a, b) || LessOption(b, a) || a == b
    ensures !(LessOption(a, b) && LessOption(b, a)) && !LessOption(a, a)
  {
    if a.Some? && b.Some? {
      LessTotal(a.value, b.value);
    }
    if a.Some? {
      LessIrreflexive(a.value);
    }
  }

  lemma LessOptionTransitive(a: Option<string>, b: Option<string>, c: Option<string>)
    requires LessOption(a, b) && LessOption(b, c)
    ensures LessOption(a, c)
  {
    if a.Some? {
      LessTransitive(a.value, b.value, c.value);
    }
  }

  function LowerLetter(c: char): char {
    if 'A' <= c <= 'Z' then c - 'A' + 'a' else c
  }

  /** The same but for upper and lower case of the letters from A to Z. */
  function Lower(text: string): string {
    seq(|text|, i requires 0 <= i < |text| => LowerLetter(text[i]))
  }

  predicate SameIgnoringCase(a: string, b: string) {
    Lower(a) == Lower(b)
  }

  /** The same character, or an A to Z and its small letter. */
  predicate SameLetter(a: char, b: char) {
    || a == b
    || ('A' <= a <= 'Z' && b as int == a as int + 32)
    || ('A' <= b <= 'Z' && a as int == b as int + 32)
  }

  lemma LettersSame(a: char, b: char)
    ensures LowerLetter(a) == LowerLetter(b) <==> SameLetter(a, b)
  {
    assert 'A' as int == 65 && 'a' as int == 97;
    assert LowerLetter(a) as int == (if 'A' <= a <= 'Z' then a as int + 32 else a as int);
    assert LowerLetter(b) as int == (if 'A' <= b <= 'Z' then b as int + 32 else b as int);
  }

  lemma SameButForCase(a: string, b: string)
    ensures SameIgnoringCase(a, b) <==> |a| == |b| && forall i | 0 <= i < |a| :: SameLetter(a[i], b[i])
  {
    if |a| == |b| {
      forall i | 0 <= i < |a|
        ensures Lower(a)[i] == Lower(b)[i] <==> SameLetter(a[i], b[i])
      {
        LettersSame(a[i], b[i]);
      }
    } else {
      assert |Lower(a)| != |Lower(b)|;
    }
  }

  ghost predicate Increasing(keys: seq<string>) {
    forall i, j | 0 <= i < j < |keys| :: Less(keys[i], keys[j])
  }

  /** The least of the keys. */
  method Least(keys: set<string>) returns (least: string)
    requires keys != {}
    ensures least in keys && forall k | k in keys && k != least :: Less(least, k)
  {
    least :| least in keys;
    var seen := {least};
    while seen != keys
      invariant least in seen && seen <= keys
      invariant forall k | k in seen && k != least :: Less(least, k)
      decreases keys - seen
    {
      assert keys == seen + (keys - seen);
      var k :| k in keys - seen;
      LessTotal(k, least);
      if Less(k, least) {
        forall j | j in seen && j != least
          ensures Less(k, j)
        {
          LessTransitive(k, least, j);
        }
        least := k;
      }
      seen := seen + {k};
    }
  }

  /** What is done comes before what is left. */
  ghost predicate DoneBefore(done: seq<string>, left: set<string>) {
    forall i, k | 0 <= i < |done| && k in left :: Less(done[i], k)
  }

  lemma LeastIsNext(done: seq<string>, left: set<string>, least: string)
    requires Increasing(done) && DoneBefore(done, left) && least in left
    requires forall k | k in left && k != least :: Less(least, k)
    ensures Increasing(done + [least]) && DoneBefore(done + [least], left - {least})
  {
  }
}
