/**
 * The order in which pandas' `groupby` emits its string keys: Python's `str`
 * comparison, which is lexicographic on code points, with a proper prefix
 * ordered before any of its extensions.
 */
module StringOrder {

  /** `a` sorts strictly before `b`. */
  predicate Below(a: string, b: string)
  {
    if |a| == 0 then |b| > 0
    else if |b| == 0 then false
    else if a[0] < b[0] then true
    else if a[0] == b[0] then Below(a[1..], b[1..])
    else false
  }

  /** Every element of `ws` sorts strictly before every later element. */
  predicate StrictlyAscending(ws: seq<string>)
  {
    forall i, j :: 0 <= i < j < |ws| ==> Below(ws[i], ws[j])
  }

  lemma {:induction false} BelowIrreflexive(a: string)
    ensures !Below(a, a)
  {
    if |a| > 0 {
      BelowIrreflexive(a[1..]);
    }
  }

  lemma {:induction false} BelowAsymmetric(a: string, b: string)
    ensures Below(a, b) ==> !Below(b, a)
  {
    if |a| > 0 && |b| > 0 && a[0] == b[0] {
      BelowAsymmetric(a[1..], b[1..]);
    }
  }

  lemma {:induction false} BelowTransitive(a: string, b: string, c: string)
    requires Below(a, b) && Below(b, c)
    ensures Below(a, c)
  {
    if |a| > 0 && |b| > 0 && |c| > 0 && a[0] == b[0] && b[0] == c[0] {
      BelowTransitive(a[1..], b[1..], c[1..]);
    }
  }

  /** Two distinct strings are always comparable. */
  lemma {:induction false} BelowTotal(a: string, b: string)
    requires a != b
    ensures Below(a, b) || Below(b, a)
  {
    if |a| > 0 && |b| > 0 && a[0] == b[0] {
      assert a == [a[0]] + a[1..] && b == [b[0]] + b[1..];
      BelowTotal(a[1..], b[1..]);
    }
  }

  /** Adds `w` to a strictly ascending sequence, keeping it strictly ascending and duplicate-free. */
  function InsertSorted(w: string, ws: seq<string>): (r: seq<string>)
    requires StrictlyAscending(ws)
    ensures StrictlyAscending(r)
    ensures forall x :: x in r <==> x == w || x in ws
    ensures |r| <= |ws| + 1
  {
    if ws == [] then [w]
    else if w == ws[0] then ws
    else if Below(w, ws[0]) then
      assert forall j :: 0 < j < |ws| ==> Below(w, ws[j]) by {
        forall j | 0 < j < |ws| ensures Below(w, ws[j]) {
          BelowTransitive(w, ws[0], ws[j]);
        }
      }
      [w] + ws
    else
      var rest := InsertSorted(w, ws[1..]);
      assert Below(ws[0], w) by { BelowTotal(w, ws[0]); }
      assert forall j :: 0 <= j < |rest| ==> Below(ws[0], rest[j]) by {
        forall j | 0 <= j < |rest| ensures Below(ws[0], rest[j]) {
          assert rest[j] in rest;
        }
      }
      [ws[0]] + rest
  }
}
