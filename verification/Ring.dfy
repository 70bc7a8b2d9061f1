/** The index arithmetic of src/client-agent/agentd.h, shared by the event buffer and
    the request pool: a ring of `n` slots, filled at `i` and drained at `j`, that keeps
    one slot free to tell full from empty. */
module Ring {

  predicate Empty(i: nat, j: nat) {
    i == j
  }

  function Forward(x: nat, n: nat): (r: nat)
    requires x < n
    ensures r < n
  {
    if x + 1 < n then x + 1 else 0
  }

  predicate Full(i: nat, j: nat, n: nat)
    requires i < n
  {
    Forward(i, n) == j
  }

  /** The occupancy the threshold macros compute. */
  function Used(i: nat, j: nat, n: nat): (c: nat)
    requires i < n && j < n
    ensures c == 0 <==> Empty(i, j)
    ensures c == n - 1 <==> Full(i, j, n)
  {
    if j <= i then i - j else i - j + n
  }

  /** Where offset `k` of the live window lands. */
  function At(j: nat, k: nat, n: nat): (p: nat)
    requires j < n && k < n
    ensures p < n
  {
    if j + k < n then j + k else j + k - n
  }

  /** The remainders written in the macros and in the copy loops are these functions. */
  lemma MacroForms(x: nat, y: nat, n: nat)
    requires x < n && y < n
    ensures (x + 1) % n == Forward(x, n)
    ensures (x - y + n) % n == Used(x, y, n)
    ensures (x + y) % n == At(x, y, n)
  {
    ModUnique(x + 1, if x + 1 < n then 0 else 1, Forward(x, n), n);
    ModUnique(x - y + n, if y <= x then 1 else 0, Used(x, y, n), n);
    ModUnique(x + y, if x + y < n then 0 else 1, At(x, y, n), n);
  }

  /** C's remainder, which truncates toward zero. */
  function CRemainder(a: int, b: int): (r: int)
    requires 0 < b
    ensures -b < r < b
  {
    if a >= 0 then a % b else -((-a) % b)
  }

  /** The length report: C remainder, then a fix-up when it came out negative. */
  function ReportedLength(i: nat, j: nat, n: nat): (len: nat)
    requires 0 < n
    ensures len < n
  {
    var r := CRemainder(i - j, n);
    if r < 0 then r + n else r
  }

  lemma ReportedLengthIsEuclidean(i: nat, j: nat, n: nat)
    requires 0 < n
    ensures ReportedLength(i, j, n) == (i - j) % n
  {
    var d := i - j;
    if d < 0 {
      var e := -d;
      var q, r := e / n, e % n;
      assert d == -(q * n) - r;
      if r == 0 {
        ModUnique(d, -q, 0, n);
      } else {
        assert d == (-q - 1) * n + (n - r);
        ModUnique(d, -q - 1, n - r, n);
      }
    }
  }

  lemma ModUnique(x: int, q: int, r: int, n: nat)
    requires 0 <= r < n && x == q * n + r
    ensures x % n == r
  {
    var q', r' := x / n, x % n;
    assert (q - q') * n == r' - r;
    assert q - q' >= 1 ==> (q - q') * n >= n;
    assert q' - q >= 1 ==> (q' - q) * n >= n;
  }

  predicate InWindow(p: nat, i: nat, j: nat) {
    if j <= i then j <= p < i else p < i || j <= p
  }

  /** The queue a ring represents: its slots from `j` up to `i`, oldest first. */
  function Queue<T>(slots: seq<T>, i: nat, j: nat): (q: seq<T>)
    requires i < |slots| && j < |slots|
    ensures |q| == Used(i, j, |slots|) < |slots|
    ensures forall k :: 0 <= k < |q| ==> q[k] == slots[At(j, k, |slots|)]
  {
    seq(Used(i, j, |slots|), k requires 0 <= k < |slots| => slots[At(j, k, |slots|)])
  }

  lemma WindowIsQueue<T>(slots: seq<T>, i: nat, j: nat, p: nat)
    requires i < |slots| && j < |slots| && p < |slots|
    ensures InWindow(p, i, j) <==> exists k :: 0 <= k < |Queue(slots, i, j)| && At(j, k, |slots|) == p
  {
    if InWindow(p, i, j) {
      var k := if j <= p then p - j else p - j + |slots|;
      assert At(j, k, |slots|) == p;
    }
  }

  lemma QueuePush<T>(slots: seq<T>, i: nat, j: nat, x: T)
    requires i < |slots| && j < |slots|
    requires !Full(i, j, |slots|)
    ensures Queue(slots[i := x], Forward(i, |slots|), j) == Queue(slots, i, j) + [x]
  {
  }

  lemma QueuePop<T>(slots: seq<T>, i: nat, j: nat)
    requires i < |slots| && j < |slots|
    requires !Empty(i, j)
    ensures Queue(slots, i, j) == [slots[j]] + Queue(slots, i, Forward(j, |slots|))
  {
  }

  lemma QueueUntouched<T>(slots: seq<T>, i: nat, j: nat, p: nat, x: T)
    requires i < |slots| && j < |slots| && p < |slots|
    requires !InWindow(p, i, j)
    ensures Queue(slots[p := x], i, j) == Queue(slots, i, j)
  {
  }

  /** Logs against windows: if a step moves a window from `p` to `p'` by letting `a` in and `g`
      out, the log of what came in stays the log of what went out plus the window. */
  lemma Regroup<T>(d: seq<T>, p: seq<T>, a: seq<T>, g: seq<T>, p': seq<T>)
    requires p + a == g + p'
    ensures (d + p) + a == (d + g) + p'
  {
    assert (d + p) + a == d + (p + a);
    assert (d + g) + p' == d + (g + p');
  }
}
