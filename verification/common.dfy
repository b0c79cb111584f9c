/** Small shared vocabulary: optional values, tile positions, engine return codes. */
module Common {

  datatype Option<T> = None | Some(value: T)

  /** A tile of the map: x and y in 0..49 inside the named room. */
  datatype Pos = Pos(x: nat, y: nat, roomName: string)

  /** A tile without its room, as the planner persists it. */
  datatype XY = XY(x: nat, y: nat)

  function ToXY(p: Pos): XY { XY(p.x, p.y) }

  function Abs(n: int): nat { if n < 0 then -n else n }

  function Max(a: int, b: int): int { if a < b then b else a }

  function Min(a: int, b: int): int { if a < b then a else b }

  /**
   * The engine's range between two tiles of one room: the larger of the two coordinate distances.
   * The room names are not compared: every caller ranges objects of the same room, where the
   * engine's `getRangeTo` never gives its infinite cross-room answer.
   */
  function Range(a: Pos, b: Pos): nat { if Abs(a.x - b.x) < Abs(a.y - b.y) then Abs(a.y - b.y) else Abs(a.x - b.x) }

  /**
   * Results of engine commands. ERR_STUCK is the bot's own synthetic code; the model keeps it
   * apart from every engine code. Codes the decision layer never tests are folded into ERR_OTHER.
   */
  datatype Code = OK | ERR_TIRED | ERR_NOT_IN_RANGE | ERR_NO_PATH | ERR_BUSY | ERR_STUCK | ERR_OTHER(n: int)

  /**
   * Index of the element with the smallest key, the earliest one on ties: what a left-to-right
   * `reduce((best, x) => key(x) < key(best) ? x : best)` keeps.
   */
  function ArgMin<T>(s: seq<T>, key: T -> int): (i: nat)
    requires |s| > 0
    ensures i < |s|
    ensures forall j :: 0 <= j < |s| ==> key(s[i]) <= key(s[j])
    ensures forall j :: 0 <= j < i ==> key(s[i]) < key(s[j])
    decreases |s|
  {
    if |s| == 1 then 0
    else
      var k := ArgMin(s[..|s| - 1], key);
      if key(s[|s| - 1]) < key(s[k]) then |s| - 1 else k
  }

  /** The elements of `s` that satisfy `p`, in order. */
  function Filter<T>(s: seq<T>, p: T -> bool): (r: seq<T>)
    ensures |r| <= |s|
    ensures forall i :: 0 <= i < |r| ==> r[i] in s && p(r[i])
    ensures forall i :: 0 <= i < |s| && p(s[i]) ==> s[i] in r
  {
    if |s| == 0 then [] else (if p(s[0]) then [s[0]] else []) + Filter(s[1..], p)
  }

  /** Membership in a filtered sequence. */
  lemma FilterHas<T>(s: seq<T>, p: T -> bool, x: T)
    ensures x in Filter(s, p) <==> x in s && p(x)
  {
    if x in Filter(s, p) {
      var k :| 0 <= k < |Filter(s, p)| && Filter(s, p)[k] == x;
    }
    if x in s && p(x) {
      var i :| 0 <= i < |s| && s[i] == x;
    }
  }

  /** Filtering a concatenation filters each part. */
  lemma {:induction false} FilterAppend<T>(a: seq<T>, b: seq<T>, p: T -> bool)
    ensures Filter(a + b, p) == Filter(a, p) + Filter(b, p)
  {
    if |a| == 0 {
      assert a + b == b;
    } else {
      assert (a + b)[0] == a[0] && (a + b)[1..] == a[1..] + b;
      FilterAppend(a[1..], b, p);
      var h := if p(a[0]) then [a[0]] else [];
      assert Filter(a + b, p) == h + (Filter(a[1..], p) + Filter(b, p));
      AppendAssoc(h, Filter(a[1..], p), Filter(b, p));
    }
  }

  /** Regrouping a concatenation, proved apart so that large method contexts need not rediscover it. */
  lemma AppendAssoc<T>(a: seq<T>, b: seq<T>, c: seq<T>)
    ensures a + b + c == a + (b + c)
  {
  }

  /** Number of elements of `s` that satisfy `p`. */
  function Count<T>(s: seq<T>, p: T -> bool): nat
  {
    if |s| == 0 then 0 else (if p(s[0]) then 1 else 0) + Count(s[1..], p)
  }
}
