/** pygame.sprite.Group as the simulation uses it: an insertion-ordered
    collection without duplicates. Iterating a group walks a snapshot of its
    sprites, and a sprite's kill() takes it out of the group. */
module Sprites {

  /** Positions i and j of s, when both exist, hold different sprites. */
  predicate Apart<T(==)>(s: seq<T>, i: int, j: int)
  {
    0 <= i < |s| && 0 <= j < |s| ==> s[i] != s[j]
  }

  /** No sprite occurs twice. Stated through Apart so that the solver
      compares two positions only when a proof asks about them. */
  predicate Distinct<T(==)>(s: seq<T>)
  {
    forall i, j :: 0 <= i < j < |s| ==> Apart(s, i, j)
  }

  /** In a sequence without duplicates, every other position holds a
      different sprite. */
  lemma DistinctAt<T>(s: seq<T>, i: nat)
    requires Distinct(s) && i < |s|
    ensures forall k :: 0 <= k < |s| && k != i ==> s[k] != s[i]
  {
    forall k | 0 <= k < |s| && k != i ensures s[k] != s[i] {
      if k < i {
        assert Apart(s, k, i);
      } else {
        assert Apart(s, i, k);
      }
    }
  }

  /** A sequence is without duplicates exactly when its head does not
      recur and its tail is without duplicates. */
  lemma DistinctCons<T>(s: seq<T>)
    requires s != []
    ensures Distinct(s) <==> s[0] !in s[1..] && Distinct(s[1..])
  {
    if Distinct(s) {
      forall i, j | 0 <= i < j < |s[1..]| ensures Apart(s[1..], i, j) {
        assert Apart(s, i + 1, j + 1);
      }
      forall j | 0 <= j < |s[1..]| ensures s[1..][j] != s[0] {
        assert Apart(s, 0, j + 1);
      }
    }
    if s[0] !in s[1..] && Distinct(s[1..]) {
      forall i, j | 0 <= i < j < |s| ensures Apart(s, i, j) {
        if i == 0 {
          assert s[j] == s[1..][j - 1];
        } else {
          assert Apart(s[1..], i - 1, j - 1);
        }
      }
    }
  }

  /** A prefix of a sequence without duplicates is without duplicates. */
  lemma DistinctPrefix<T>(s: seq<T>, n: nat)
    requires Distinct(s) && n <= |s|
    ensures Distinct(s[..n])
  {
    forall i, j | 0 <= i < j < n ensures Apart(s[..n], i, j) {
      assert Apart(s, i, j);
    }
  }

  /** Appending a sprite not yet present keeps the sequence without
      duplicates. */
  lemma DistinctSnoc<T>(s: seq<T>, x: T)
    requires Distinct(s) && x !in s
    ensures Distinct(s + [x])
  {
    forall i, j | 0 <= i < j < |s + [x]| ensures Apart(s + [x], i, j) {
      if j < |s| {
        assert Apart(s, i, j);
      } else {
        assert s[i] in s;
      }
    }
  }

  /** s without x, order kept. */
  function Without<T(==)>(s: seq<T>, x: T): (r: seq<T>)
    ensures |r| <= |s|
  {
    if s == [] then []
    else if s[0] == x then Without(s[1..], x)
    else [s[0]] + Without(s[1..], x)
  }

  /** x is gone afterwards, and taking out an absent sprite changes
      nothing. */
  lemma {:induction false} WithoutRemoves<T>(s: seq<T>, x: T)
    ensures x !in Without(s, x)
    ensures x !in s ==> Without(s, x) == s
  {
    if s != [] {
      WithoutRemoves(s[1..], x);
      if s[0] != x {
        assert Without(s, x) == [s[0]] + Without(s[1..], x);
        if x !in s {
          assert s == [s[0]] + s[1..];
        }
      }
    }
  }

  /** Taking out a sprite that occurs once removes just that position. */
  lemma {:induction false} WithoutSplit<T>(a: seq<T>, x: T, c: seq<T>)
    requires x !in a && x !in c
    ensures Without(a + [x] + c, x) == a + c
  {
    var s := a + [x] + c;
    if a == [] {
      assert s[0] == x && s[1..] == c;
      WithoutRemoves(c, x);
    } else {
      assert s[0] == a[0] && s[1..] == a[1..] + [x] + c;
      WithoutSplit(a[1..], x, c);
      assert Without(s, x) == [a[0]] + (a[1..] + c);
      assert [a[0]] + (a[1..] + c) == a + c;
    }
  }

  /** Without only drops: everything it keeps was in s. */
  lemma {:induction false} WithoutSubset<T>(s: seq<T>, x: T, y: T)
    ensures y in Without(s, x) ==> y in s
  {
    if s != [] {
      WithoutSubset(s[1..], x, y);
    }
  }

  lemma {:induction false} WithoutKeepsDistinct<T>(s: seq<T>, x: T)
    requires Distinct(s)
    ensures Distinct(Without(s, x))
  {
    if s != [] {
      DistinctCons(s);
      WithoutKeepsDistinct(s[1..], x);
      WithoutSubset(s[1..], x, s[0]);
      if s[0] != x {
        var r := Without(s, x);
        assert r == [s[0]] + Without(s[1..], x);
        assert r[1..] == Without(s[1..], x);
        DistinctCons(r);
      }
    }
  }

  /** s without any of the sprites in dead, order kept. */
  function Excluding<T(==)>(s: seq<T>, dead: set<T>): (r: seq<T>)
    ensures |r| <= |s|
  {
    if s == [] then []
    else (if s[0] in dead then [] else [s[0]]) + Excluding(s[1..], dead)
  }

  /** Every survivor comes from s and is not among the dead. */
  lemma {:induction false} ExcludingMember<T>(s: seq<T>, dead: set<T>, x: T)
    requires x in Excluding(s, dead)
    ensures x in s && x !in dead
  {
    var head := if s[0] in dead then [] else [s[0]];
    assert Excluding(s, dead) == head + Excluding(s[1..], dead);
    if x !in head {
      ExcludingMember(s[1..], dead, x);
    }
  }

  /** The survivors are exactly the sprites of s outside dead. */
  lemma ExcludingIff<T>(s: seq<T>, dead: set<T>, x: T)
    ensures x in Excluding(s, dead) <==> x in s && x !in dead
  {
    if x in Excluding(s, dead) {
      ExcludingMember(s, dead, x);
    }
    if x in s && x !in dead {
      var k :| 0 <= k < |s| && s[k] == x;
      ExcludingKeeps(s, dead, k);
    }
  }

  /** Every other sprite stays. */
  lemma {:induction false} WithoutKeeps<T>(s: seq<T>, x: T, k: nat)
    requires k < |s| && s[k] != x
    ensures s[k] in Without(s, x)
  {
    if k > 0 {
      WithoutKeeps(s[1..], x, k - 1);
    }
  }

  /** Every sprite not in dead stays. */
  lemma {:induction false} ExcludingKeeps<T>(s: seq<T>, dead: set<T>, k: nat)
    requires k < |s| && s[k] !in dead
    ensures s[k] in Excluding(s, dead)
  {
    if k > 0 {
      ExcludingKeeps(s[1..], dead, k - 1);
    }
  }

  lemma {:induction false} ExcludingNothing<T>(s: seq<T>)
    ensures Excluding(s, {}) == s
  {
    if s != [] {
      ExcludingNothing(s[1..]);
    }
  }

  lemma {:induction false} ExcludingKeepsDistinct<T>(s: seq<T>, dead: set<T>)
    requires Distinct(s)
    ensures Distinct(Excluding(s, dead))
  {
    if s != [] {
      DistinctCons(s);
      ExcludingKeepsDistinct(s[1..], dead);
      if s[0] in Excluding(s[1..], dead) {
        ExcludingMember(s[1..], dead, s[0]);
      }
      if s[0] !in dead {
        var r := Excluding(s, dead);
        assert r == [s[0]] + Excluding(s[1..], dead);
        assert r[1..] == Excluding(s[1..], dead);
        DistinctCons(r);
      } else {
        assert Excluding(s, dead) == Excluding(s[1..], dead);
      }
    }
  }

  /** Killing the sprites one at a time leaves the same group as excluding
      all of them at once. */
  lemma {:induction false} WithoutExcluding<T>(s: seq<T>, dead: set<T>, x: T)
    ensures Without(Excluding(s, dead), x) == Excluding(s, dead + {x})
  {
    if s != [] {
      WithoutExcluding(s[1..], dead, x);
      var e := Excluding(s, dead);
      if s[0] in dead {
        assert e == Excluding(s[1..], dead);
      } else {
        assert e == [s[0]] + Excluding(s[1..], dead);
        assert e[0] == s[0] && e[1..] == Excluding(s[1..], dead);
      }
    }
  }

  /** The elements of s whose mark is set, for marks covering a prefix
      of s. */
  function Marked<T>(s: seq<T>, marks: seq<bool>): set<T>
    requires |marks| <= |s|
  {
    if marks == [] then {}
    else
      var n := |marks| - 1;
      Marked(s, marks[..n]) + if marks[n] then {s[n]} else {}
  }

  /** Every marked element is in the set, and only elements of s with a
      set mark at some position are. */
  lemma {:induction false} MarkedIff<T>(s: seq<T>, marks: seq<bool>, x: T)
    requires |marks| <= |s|
    ensures x in Marked(s, marks) <==> exists k :: 0 <= k < |marks| && s[k] == x && marks[k]
  {
    if marks != [] {
      var n := |marks| - 1;
      MarkedIff(s, marks[..n], x);
      if x in Marked(s, marks[..n]) {
        var k :| 0 <= k < n && s[k] == x && marks[..n][k];
        assert marks[k];
      }
      if exists k :: 0 <= k < |marks| && s[k] == x && marks[k] {
        var k :| 0 <= k < |marks| && s[k] == x && marks[k];
        if k < n {
          assert marks[..n][k];
        }
      }
    }
  }

  /** An element of s that survives Excluding(s, Marked(s, marks)) was
      unmarked wherever it occurs in s. */
  lemma MarkedSurvivor<T>(s: seq<T>, marks: seq<bool>, i: nat)
    requires |marks| == |s| && i < |Excluding(s, Marked(s, marks))|
    ensures forall k :: 0 <= k < |s| && s[k] == Excluding(s, Marked(s, marks))[i] ==> !marks[k]
  {
    var x := Excluding(s, Marked(s, marks))[i];
    ExcludingMember(s, Marked(s, marks), x);
    MarkedIff(s, marks, x);
  }

  /** One step of a kill pass over s that has decided the first |marks|
      elements: the survivors `before` lose s[|marks|] exactly when it is
      marked next. */
  lemma KillStep<T>(s: seq<T>, marks: seq<bool>, m: bool, before: seq<T>, after: seq<T>)
    requires |marks| < |s|
    requires before == Excluding(s, Marked(s, marks))
    requires after == if m then Without(before, s[|marks|]) else before
    ensures after == Excluding(s, Marked(s, marks + [m]))
  {
    var i := |marks|;
    assert (marks + [m])[..i] == marks;
    var dead := Marked(s, marks);
    if m {
      assert Marked(s, marks + [m]) == dead + {s[i]};
      WithoutExcluding(s, dead, s[i]);
    } else {
      assert Marked(s, marks + [m]) == dead;
    }
  }

  class Group<T(==)> {
    var sprites: seq<T>

    ghost predicate Valid()
      reads this
    {
      Distinct(sprites)
    }

    constructor ()
      ensures sprites == [] && Valid()
    {
      sprites := [];
    }

    /** add(x): appended at the end unless already present. */
    method Add(x: T)
      modifies this`sprites
      ensures sprites == if x in old(sprites) then old(sprites) else old(sprites) + [x]
      ensures old(Valid()) ==> Valid()
    {
      if x !in sprites {
        if Valid() {
          DistinctSnoc(sprites, x);
        }
        sprites := sprites + [x];
      }
    }

    /** remove(x), which kill() does for every group of the sprite. */
    method Remove(x: T)
      modifies this`sprites
      ensures sprites == Without(old(sprites), x)
      ensures old(Valid()) ==> Valid()
    {
      if old(Valid()) {
        WithoutKeepsDistinct(sprites, x);
      }
      sprites := Without(sprites, x);
    }
  }
}
