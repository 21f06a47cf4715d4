/** Texts made of fields, each with a separator in front of it, and how they can be misread. */
module Fields {
  /** A bar comes first only, an equals sign last only, and no two separators are equal; the
      first field needs no bar. */
  ghost predicate Separators(seps: seq<string>) {
    && (forall j | 0 <= j < |seps| :: seps[j] != "")
    && (forall j, i | 0 <= j < |seps| && 0 <= i < |seps[j]| :: SepShaped(seps, j, i))
    && (forall i, j | 0 < i < j < |seps| :: seps[i] != seps[j])
  }

  predicate SepShaped(seps: seq<string>, j: nat, i: nat)
    requires j < |seps| && i < |seps[j]|
  {
    && (seps[j][i] == '|' <==> i == 0 && j > 0)
    && (seps[j][i] == '=' <==> i == |seps[j]| - 1)
  }

  /** The text from field `j` on. */
  function From(seps: seq<string>, vs: seq<string>, j: nat): string
    requires |vs| == |seps| && j <= |seps|
    decreases |seps| - j
  {
    if j == |seps| then "" else seps[j] + vs[j] + From(seps, vs, j + 1)
  }

  /** The separator of field `j` stands at position `b`. */
  predicate SepAt(seps: seq<string>, s: string, j: nat, b: nat) {
    j < |seps| && b + |seps[j]| <= |s| && s[b..b + |seps[j]|] == seps[j]
  }

  predicate SepIn(seps: seq<string>, s: string, j: nat) {
    exists b: nat | b < |s| :: SepAt(seps, s, j, b)
  }

  /** Where the bars and the equals signs of a separator are. */
  lemma SepMarks(seps: seq<string>, s: string, j: nat, b: nat)
    requires Separators(seps) && SepAt(seps, s, j, b)
    ensures forall x | b <= x < b + |seps[j]| ::
              (s[x] == '|' <==> x == b && j > 0) && (s[x] == '=' <==> x == b + |seps[j]| - 1)
  {
    forall x | b <= x < b + |seps[j]|
      ensures s[x] == seps[j][x - b] && SepShaped(seps, j, x - b)
    {
      assert s[b..b + |seps[j]|][x - b] == s[x];
    }
  }

  /** Two separators at one position are one. */
  lemma SameSep(seps: seq<string>, s: string, i: nat, j: nat, b: nat)
    requires Separators(seps) && SepAt(seps, s, i, b) && SepAt(seps, s, j, b) && i > 0 && j > 0
    ensures i == j
  {
    SepMarks(seps, s, i, b);
    SepMarks(seps, s, j, b);
    assert s[b + |seps[i]| - 1] == '=' && s[b + |seps[j]| - 1] == '=';
    assert seps[i] == seps[j];
  }

  // ----- positions --------------------------------------------------------------------

  /** Where the separator of field `j` stands; the end of the text for the last `j`. */
  function Pos(seps: seq<string>, vs: seq<string>, j: nat): nat
    requires |vs| == |seps| && j <= |seps|
  {
    if j == 0 then 0 else Pos(seps, vs, j - 1) + |seps[j - 1]| + |vs[j - 1]|
  }

  lemma {:induction false} PosGrows(seps: seq<string>, vs: seq<string>, i: nat, j: nat)
    requires |vs| == |seps| && i < j <= |seps|
    ensures Pos(seps, vs, i) + |seps[i]| + |vs[i]| <= Pos(seps, vs, j)
    decreases j
  {
    if i == j - 1 {
    } else {
      PosGrows(seps, vs, i, j - 1);
    }
  }

  lemma {:induction false} TextAt(seps: seq<string>, vs: seq<string>, j: nat)
    requires |vs| == |seps| && j <= |seps|
    ensures Pos(seps, vs, j) + |From(seps, vs, j)| == |From(seps, vs, 0)|
    ensures From(seps, vs, 0)[Pos(seps, vs, j)..] == From(seps, vs, j)
    decreases j
  {
    if j == 0 {
    } else {
      TextAt(seps, vs, j - 1);
      var t, b := From(seps, vs, 0), Pos(seps, vs, j - 1);
      assert From(seps, vs, j - 1) == seps[j - 1] + vs[j - 1] + From(seps, vs, j);
      assert t[Pos(seps, vs, j)..] == t[b..][|seps[j - 1]| + |vs[j - 1]|..];
    }
  }

  lemma SliceOfSlice(t: string, b: nat, o: nat, l: nat)
    requires b + o + l <= |t|
    ensures t[b + o..b + o + l] == t[b..][o..o + l]
  {
  }

  /** The separator and the value of a field, in the text. */
  lemma FieldAt(seps: seq<string>, vs: seq<string>, j: nat)
    requires |vs| == |seps| && j < |seps|
    ensures var t, b := From(seps, vs, 0), Pos(seps, vs, j) + |seps[j]|;
            && b + |vs[j]| == Pos(seps, vs, j + 1) <= |t|
            && SepAt(seps, t, j, Pos(seps, vs, j)) && t[b..b + |vs[j]|] == vs[j]
  {
    TextAt(seps, vs, j);
    TextAt(seps, vs, j + 1);
    var t, b, l := From(seps, vs, 0), Pos(seps, vs, j), |seps[j]|;
    var tail := From(seps, vs, j);
    assert tail == seps[j] + vs[j] + From(seps, vs, j + 1);
    SliceOfSlice(t, b, 0, l);
    SliceOfSlice(t, b, l, |vs[j]|);
    assert tail[0..l] == seps[j] && tail[l..l + |vs[j]|] == vs[j];
  }

  /** The field that a position of the text belongs to. */
  lemma {:induction false} FieldOf(seps: seq<string>, vs: seq<string>, b: nat, n: nat) returns (k: nat)
    requires |vs| == |seps| && n <= |seps| && b < Pos(seps, vs, n)
    ensures k < n && Pos(seps, vs, k) <= b < Pos(seps, vs, k + 1)
    decreases n
  {
    if Pos(seps, vs, n - 1) <= b {
      k := n - 1;
    } else {
      k := FieldOf(seps, vs, b, n - 1);
    }
  }

  lemma SepEndsInside(seps: seq<string>, vs: seq<string>, j: nat, b: nat, k: nat)
    requires Separators(seps) && |vs| == |seps| && j > 0 && k < |seps| && SepAt(seps, From(seps, vs, 0), j, b)
    requires Pos(seps, vs, k) + |seps[k]| <= b < Pos(seps, vs, k + 1)
    ensures b + |seps[j]| <= Pos(seps, vs, k + 1)
  {
    var t := From(seps, vs, 0);
    TextAt(seps, vs, |seps|);
    SepMarks(seps, t, j, b);
    if k + 1 < |seps| {
      FieldAt(seps, vs, k + 1);
      SepMarks(seps, t, k + 1, Pos(seps, vs, k + 1));
      assert t[Pos(seps, vs, k + 1)] == '|';
    }
  }

  /** A position with a bar is that of a separator, or lies inside a value. */
  lemma BarOutsideSeps(seps: seq<string>, vs: seq<string>, b: nat, k: nat)
    requires Separators(seps) && |vs| == |seps| && k < |seps| && Pos(seps, vs, k) <= b < Pos(seps, vs, k + 1)
    requires b < |From(seps, vs, 0)| && From(seps, vs, 0)[b] == '|'
    ensures (b == Pos(seps, vs, k) && k > 0) || Pos(seps, vs, k) + |seps[k]| <= b
  {
    FieldAt(seps, vs, k);
    SepMarks(seps, From(seps, vs, 0), k, Pos(seps, vs, k));
  }

  /** A separator that is not where its field begins lies wholly inside one value. */
  lemma StraySep(seps: seq<string>, vs: seq<string>, j: nat, b: nat) returns (k: nat)
    requires Separators(seps) && |vs| == |seps| && j > 0
    requires SepAt(seps, From(seps, vs, 0), j, b) && b != Pos(seps, vs, j)
    ensures k < |seps| && Pos(seps, vs, k) + |seps[k]| <= b < Pos(seps, vs, k + 1) && SepIn(seps, vs[k], j)
  {
    var t := From(seps, vs, 0);
    TextAt(seps, vs, |seps|);
    k := FieldOf(seps, vs, b, |seps|);
    SepMarks(seps, t, j, b);
    BarOutsideSeps(seps, vs, b, k);
    FieldAt(seps, vs, k);
    if k > 0 && b == Pos(seps, vs, k) {
      SameSep(seps, t, k, j, b);
    }
    SepEndsInside(seps, vs, j, b, k);
    SepInValue(seps, vs, j, b, k);
  }

  lemma PartOfPart(t: string, b: nat, n: nat, o: nat, l: nat)
    requires b + n <= |t| && o + l <= n
    ensures t[b..b + n][o..o + l] == t[b + o..b + o + l]
  {
    var part := t[b..b + n];
    assert forall i | o <= i < o + l :: part[i] == t[b + i];
  }

  lemma SepInValue(seps: seq<string>, vs: seq<string>, j: nat, b: nat, k: nat)
    requires |vs| == |seps| && k < |seps| && SepAt(seps, From(seps, vs, 0), j, b) && seps[j] != ""
    requires Pos(seps, vs, k) + |seps[k]| <= b && b + |seps[j]| <= Pos(seps, vs, k + 1)
    ensures SepIn(seps, vs[k], j)
  {
    var t, o := From(seps, vs, 0), b - (Pos(seps, vs, k) + |seps[k]|);
    FieldAt(seps, vs, k);
    PartOfPart(t, Pos(seps, vs, k) + |seps[k]|, |vs[k]|, o, |seps[j]|);
    assert SepAt(seps, vs[k], j, o);
  }

  // ----- when two lists of values have one text ----------------------------------------

  /** A value contains its own separator, or that of the next field. */
  ghost predicate Ambiguous(seps: seq<string>, vs: seq<string>)
    requires |vs| == |seps|
  {
    || (exists i | 0 < i < |seps| :: SepIn(seps, vs[i], i))
    || (exists i | 0 <= i < |seps| - 1 :: SepIn(seps, vs[i], i + 1))
  }

  /** A field that starts later in another reading: some value contains its own separator. */
  lemma {:induction false} WalkUp(seps: seq<string>, vs: seq<string>, ws: seq<string>, j: nat)
    requires Separators(seps) && |vs| == |ws| == |seps| && From(seps, vs, 0) == From(seps, ws, 0)
    requires 0 < j < |seps| && Pos(seps, ws, j) > Pos(seps, vs, j)
    ensures Ambiguous(seps, vs)
    decreases |seps| - j
  {
    FieldAt(seps, ws, j);
    var k := StraySep(seps, vs, j, Pos(seps, ws, j));
    if k < j {
      PosGrows(seps, vs, k, j);
    } else if k > j {
      PosGrows(seps, ws, j, k);
      WalkUp(seps, vs, ws, k);
    }
  }

  /** A field that starts earlier: some value contains the separator of the next field. */
  lemma {:induction false} WalkDown(seps: seq<string>, vs: seq<string>, ws: seq<string>, j: nat)
    requires Separators(seps) && |vs| == |ws| == |seps| && From(seps, vs, 0) == From(seps, ws, 0)
    requires 0 < j < |seps| && Pos(seps, ws, j) < Pos(seps, vs, j)
    ensures Ambiguous(seps, vs)
    decreases j
  {
    FieldAt(seps, ws, j);
    var k := StraySep(seps, vs, j, Pos(seps, ws, j));
    if k >= j {
      if k > j {
        PosGrows(seps, vs, j, k);
      }
    } else if k < j - 1 {
      PosGrows(seps, ws, k + 1, j);
      WalkDown(seps, vs, ws, k + 1);
    }
  }

  lemma SameField(seps: seq<string>, vs: seq<string>, ws: seq<string>, j: nat)
    requires |vs| == |ws| == |seps| && From(seps, vs, 0) == From(seps, ws, 0) && j < |seps|
    requires Pos(seps, vs, j) == Pos(seps, ws, j) && Pos(seps, vs, j + 1) == Pos(seps, ws, j + 1)
    ensures vs[j] == ws[j]
  {
    FieldAt(seps, vs, j);
    FieldAt(seps, ws, j);
  }

  lemma SamePositions(seps: seq<string>, vs: seq<string>, ws: seq<string>)
    requires |vs| == |ws| == |seps| && From(seps, vs, 0) == From(seps, ws, 0)
    requires forall j | 0 < j < |seps| :: Pos(seps, vs, j) == Pos(seps, ws, j)
    ensures vs == ws
  {
    TextAt(seps, vs, |seps|);
    TextAt(seps, ws, |seps|);
    assert forall j | 0 <= j <= |seps| :: Pos(seps, vs, j) == Pos(seps, ws, j);
    forall j | 0 <= j < |seps|
      ensures vs[j] == ws[j]
    {
      SameField(seps, vs, ws, j);
    }
  }

  lemma {:induction false} FromBelow(seps: seq<string>, vs: seq<string>, ws: seq<string>, i: nat, j: nat)
    requires |vs| == |ws| == |seps| && i <= j <= |seps| && From(seps, vs, j) == From(seps, ws, j)
    requires forall k | i <= k < j :: vs[k] == ws[k]
    ensures From(seps, vs, i) == From(seps, ws, i)
    decreases j - i
  {
    if i == j {
    } else {
      FromBelow(seps, vs, ws, i + 1, j);
    }
  }

  lemma {:induction false} FromAbove(seps: seq<string>, vs: seq<string>, ws: seq<string>, j: nat)
    requires |vs| == |ws| == |seps| && j <= |seps| && forall k | j <= k < |seps| :: vs[k] == ws[k]
    ensures From(seps, vs, j) == From(seps, ws, j)
    decreases |seps| - j
  {
    if j < |seps| {
      FromAbove(seps, vs, ws, j + 1);
    }
  }

  /** The text stays the same when the boundary of two fields moves. */
  lemma Reparse(seps: seq<string>, vs: seq<string>, i: nat, a: string, b: string)
    requires |vs| == |seps| && i + 1 < |seps|
    requires vs[i] + seps[i + 1] + vs[i + 1] == a + seps[i + 1] + b
    ensures From(seps, vs[i := a][i + 1 := b], 0) == From(seps, vs, 0)
  {
    var ws, s, rest := vs[i := a][i + 1 := b], seps[i + 1], From(seps, vs, i + 2);
    FromAbove(seps, vs, ws, i + 2);
    assert From(seps, vs, i + 1) == s + vs[i + 1] + rest && From(seps, ws, i + 1) == s + b + rest;
    assert From(seps, vs, i) == seps[i] + (vs[i] + s + vs[i + 1]) + rest;
    assert From(seps, ws, i) == seps[i] + (a + s + b) + rest;
    FromBelow(seps, vs, ws, 0, i);
  }

  lemma SplitAtSep(seps: seq<string>, v: string, j: nat) returns (x: string, y: string)
    requires SepIn(seps, v, j)
    ensures v == x + seps[j] + y
  {
    var b: nat :| b < |v| && SepAt(seps, v, j, b);
    x, y := v[..b], v[b + |seps[j]|..];
  }

  /** A value with a separator that can be misread has another reading. */
  lemma OtherReading(seps: seq<string>, vs: seq<string>) returns (ws: seq<string>)
    requires Separators(seps) && |vs| == |seps| && Ambiguous(seps, vs)
    ensures |ws| == |seps| && ws != vs && From(seps, ws, 0) == From(seps, vs, 0)
  {
    if i :| 0 < i < |seps| && SepIn(seps, vs[i], i) {
      var x, y := SplitAtSep(seps, vs[i], i);
      var a := vs[i - 1] + seps[i] + x;
      assert vs[i - 1] + seps[i] + vs[i] == a + seps[i] + y;
      Reparse(seps, vs, i - 1, a, y);
      ws := vs[i - 1 := a][i := y];
      assert |ws[i]| < |vs[i]|;
    } else {
      var i :| 0 <= i < |seps| - 1 && SepIn(seps, vs[i], i + 1);
      var x, y := SplitAtSep(seps, vs[i], i + 1);
      var b := y + seps[i + 1] + vs[i + 1];
      assert vs[i] + seps[i + 1] + vs[i + 1] == x + seps[i + 1] + b;
      Reparse(seps, vs, i, x, b);
      ws := vs[i := x][i + 1 := b];
      assert |ws[i]| < |vs[i]|;
    }
  }

  /** Another list of values has the same text exactly when a value contains its own separator
      or that of the next field. */
  lemma TextIsShared(seps: seq<string>, vs: seq<string>)
    requires Separators(seps) && |vs| == |seps|
    ensures (exists ws :: |ws| == |seps| && ws != vs && From(seps, ws, 0) == From(seps, vs, 0)) <==> Ambiguous(seps, vs)
  {
    if Ambiguous(seps, vs) {
      var ws := OtherReading(seps, vs);
    }
    forall ws | |ws| == |seps| && ws != vs && From(seps, ws, 0) == From(seps, vs, 0)
      ensures Ambiguous(seps, vs)
    {
      if j :| 0 < j < |seps| && Pos(seps, vs, j) != Pos(seps, ws, j) {
        if Pos(seps, ws, j) > Pos(seps, vs, j) {
          WalkUp(seps, vs, ws, j);
        } else {
          WalkDown(seps, vs, ws, j);
        }
      } else {
        SamePositions(seps, vs, ws);
      }
    }
  }

  lemma SepHasBar(seps: seq<string>, s: string, j: nat, b: nat)
    requires Separators(seps) && SepAt(seps, s, j, b) && j > 0
    ensures '|' in s
  {
    SepMarks(seps, s, j, b);
    assert s[b] == '|';
  }

  /** A text whose values have no bars has no other reading. */
  lemma WithoutBars(seps: seq<string>, vs: seq<string>)
    requires Separators(seps) && |vs| == |seps| && forall i | 0 <= i < |vs| :: '|' !in vs[i]
    ensures !Ambiguous(seps, vs)
  {
    forall i: nat, j: nat, b: nat | i < |vs| && 0 < j < |seps| && b < |vs[i]|
      ensures !SepAt(seps, vs[i], j, b)
    {
      if SepAt(seps, vs[i], j, b) {
        SepHasBar(seps, vs[i], j, b);
      }
    }
  }
}
