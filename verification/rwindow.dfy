/** The rectangular analysis window with first-order pre-emphasis (rwindow.cpp). */
module RWindow {

  /**
   * Sample i of the window over `inp` starting at `ioff`: with a non-zero
   * pre-emphasis k it is the first difference inp[ioff+i+1] - k·inp[ioff+i],
   * otherwise the plain sample.
   */
  function Windowed(inp: seq<real>, ioff: int, n: int, k: real): (out: seq<real>)
    requires 0 <= ioff && 0 <= n
    requires n == 0 || ioff + n + (if k != 0.0 then 1 else 0) <= |inp|
    ensures |out| == n
    ensures n > 0 && k == 0.0 ==> out == inp[ioff..ioff + n]
  {
    seq(n, i requires 0 <= i < n => if k != 0.0 then inp[ioff + i + 1] - k * inp[ioff + i] else inp[ioff + i])
  }

  /**
   * The inverse of the pre-emphasis filter: from the first raw sample `x0`
   * and the emphasised samples, y[0] = x0 and y[i+1] = out[i] + k·y[i].
   */
  function DeEmphasized(x0: real, out: seq<real>, k: real): (y: seq<real>)
    ensures |y| == |out| + 1 && y[0] == x0
    decreases |out|
  {
    if out == [] then [x0]
    else
      var y := DeEmphasized(x0, out[..|out| - 1], k);
      y + [Restored(out[|out| - 1], k, y[|out| - 1])]
  }

  /** One step of the de-emphasis recurrence. */
  function Restored(emphasized: real, k: real, previous: real): real
  {
    emphasized + k * previous
  }

  /** One more emphasised sample de-emphasises back to one more raw sample. */
  lemma DeEmphasisStep(inp: seq<real>, ioff: int, m: int, k: real)
    requires 0 <= ioff && 0 <= m && ioff + m + 2 <= |inp| && k != 0.0
    requires DeEmphasized(inp[ioff], Windowed(inp, ioff, m, k), k) == inp[ioff..ioff + m + 1]
    ensures DeEmphasized(inp[ioff], Windowed(inp, ioff, m + 1, k), k) == inp[ioff..ioff + m + 2]
  {
    var v := Windowed(inp, ioff, m, k);
    var w := Windowed(inp, ioff, m + 1, k);
    assert w[..|w| - 1] == v;
    var y := DeEmphasized(inp[ioff], v, k);
    assert y[m] == inp[ioff + m];
    assert Restored(w[m], k, y[m]) == inp[ioff + m + 1];
    assert inp[ioff..ioff + m + 2] == inp[ioff..ioff + m + 1] + [inp[ioff + m + 1]];
  }

  /**
   * The pre-emphasised window loses nothing: de-emphasising it from the
   * window's first raw sample gives back the n+1 raw samples it was made from.
   */
  lemma {:induction false} DeEmphasisRecoversSamples(inp: seq<real>, ioff: int, n: int, k: real)
    requires 0 <= ioff && 0 <= n && ioff + n + 1 <= |inp| && k != 0.0
    ensures DeEmphasized(inp[ioff], Windowed(inp, ioff, n, k), k) == inp[ioff..ioff + n + 1]
  {
    if n > 0 {
      var m := n - 1;
      DeEmphasisRecoversSamples(inp, ioff, m, k);
      DeEmphasisStep(inp, ioff, m, k);
    }
  }

  /**
   * `rwindow`: writes out[0..n) with the window of `inp` at `ioff`; the rest
   * of `out` is left alone.
   */
  method RWindow(inp: seq<real>, ioff: int, out: array<real>, n: int, preEmphasis: real)
    requires 0 <= ioff && n <= out.Length
    requires n > 0 ==> ioff + n + (if preEmphasis != 0.0 then 1 else 0) <= |inp|
    modifies out
    ensures n > 0 ==> out[..n] == Windowed(inp, ioff, n, preEmphasis)
    ensures forall i :: 0 <= i < out.Length && i >= n ==> out[i] == old(out[i])
  {
    var m := if n > 0 then n else 0;
    if preEmphasis != 0.0 {
      var i := 0;
      while i < m
        invariant 0 <= i <= m
        invariant forall t :: 0 <= t < i ==> out[t] == inp[ioff + t + 1] - preEmphasis * inp[ioff + t]
        invariant forall t :: i <= t < out.Length ==> out[t] == old(out[t])
      {
        out[i] := inp[ioff + i + 1] - preEmphasis * inp[ioff + i];
        i := i + 1;
      }
      if n > 0 {
        forall t | 0 <= t < n
          ensures out[..n][t] == Windowed(inp, ioff, n, preEmphasis)[t]
        {
          assert out[..n][t] == out[t];
        }
        assert out[..n] == Windowed(inp, ioff, n, preEmphasis);
      }
    } else {
      var i := 0;
      while i < m
        invariant 0 <= i <= m
        invariant forall t :: 0 <= t < i ==> out[t] == inp[ioff + t]
        invariant forall t :: i <= t < out.Length ==> out[t] == old(out[t])
      {
        out[i] := inp[ioff + i];
        i := i + 1;
      }
      if n > 0 {
        forall t | 0 <= t < n
          ensures out[..n][t] == Windowed(inp, ioff, n, preEmphasis)[t]
        {
          assert out[..n][t] == out[t];
        }
        assert out[..n] == Windowed(inp, ioff, n, preEmphasis);
      }
    }
  }
}
