// windows_tools/product_key: the base-24 decoder of the registry's DigitalProductID, the license
// channel read from a SoftwareLicensingProduct description, and the key read from WMI.
module ProductKey {
  import opened Wrappers
  import opened Text
  import opened WmiQueries
  import opened Registry

  /** The 24 symbols of a product key, indexed by the accumulator modulo 24. */
  const Alphabet: string := "BCDFGHJKMPQRTVWXY2346789"

  /** Where the encoded key starts in the DigitalProductID value. */
  const KeyOffset: int := 52

  /** One element of the decoder's working list: an int (a byte of a bytes value) or a str (a
      character of a text value), read through ord(). */
  datatype Cell = Num(n: int) | Txt(s: string)

  /** IndexError (the value is shorter than 67 elements) and TypeError (ord() of a str that is not
      one character long). */
  datatype DecodeError = ShortInput | BadCell

  /** The number a cell stands for; None where ord() raises. */
  function CellValue(c: Cell): Option<int> {
    match c
    case Num(n) => Some(n)
    case Txt(s) => if |s| == 1 then Some(s[0] as int) else None
  }

  /** The numbers of all cells, None when one of them has none. */
  function Ords(cells: seq<Cell>): (r: Option<seq<int>>)
    ensures r.Some? ==> |r.value| == |cells|
  {
    if cells == [] then Some([])
    else
      var rest := Ords(cells[1..]);
      if CellValue(cells[0]).None? || rest.None? then None
      else Some([CellValue(cells[0]).value] + rest.value)
  }

  /** Ords fails exactly when some cell has no number, and otherwise lists every cell's number. */
  lemma {:induction false} OrdsValues(cells: seq<Cell>)
    ensures Ords(cells).None? <==> exists k :: 0 <= k < |cells| && CellValue(cells[k]).None?
    ensures Ords(cells).Some? ==> forall k :: 0 <= k < |cells| ==> CellValue(cells[k]) == Some(Ords(cells).value[k])
  {
    if cells != [] {
      OrdsValues(cells[1..]);
      assert forall k :: 1 <= k < |cells| ==> cells[k] == cells[1..][k - 1];
      if CellValue(cells[0]).Some? && Ords(cells[1..]).None? {
        var k :| 0 <= k < |cells[1..]| && CellValue(cells[1..][k]).None?;
        assert CellValue(cells[k + 1]).None?;
      }
    }
  }

  /** `int(a / 24)`: float division truncated toward zero. */
  function TruncDiv24(a: int): int {
    if a >= 0 then a / 24 else -((-a) / 24)
  }

  /** The `255 if ... > 255` cap on a rewritten cell. */
  function Clamp(q: int): int {
    if q <= 255 then q else 255
  }

  /** The inner loop over the first `n` elements of the window `w` (element j is the cell at
      52 + j), from element n - 1 down, carrying `acc`: the rewritten elements and the final
      accumulator. */
  function Divide(w: seq<int>, n: nat, acc: int): (r: (seq<int>, int))
    requires n <= |w| && 0 <= acc < 24
    ensures |r.0| == n && 0 <= r.1 < 24
  {
    if n == 0 then ([], acc)
    else
      var a := acc * 256 + w[n - 1];
      var rest := Divide(w, n - 1, a % 24);
      (rest.0 + [Clamp(TruncDiv24(a))], rest.1)
  }

  /** The window after `n` passes. */
  function After(w: seq<int>, n: nat): (r: seq<int>)
    ensures |r| == |w|
  {
    if n == 0 then w else Divide(After(w, n - 1), |w|, 0).0
  }

  /** The accumulators the first `n` passes end with, in the order they are produced. */
  function Digits(w: seq<int>, n: nat): (r: seq<Digit>)
    ensures |r| == n
  {
    if n == 0 then [] else Digits(w, n - 1) + [Divide(After(w, n - 1), |w|, 0).1]
  }

  /** A remainder modulo 24: the index of a key symbol. */
  type Digit = d: int | 0 <= d < 24

  /** How many dashes the key holds after `m` symbols. */
  function Dashes(m: int): int {
    if m == 25 then 4 else m / 5
  }

  /** The key text after producing the symbols for `ds`: each new symbol is put in front, and a
      dash in front of it after every fifth symbol but the last. */
  function KeyText(ds: seq<Digit>): string {
    if ds == [] then ""
    else
      var m := |ds|;
      var key := [Alphabet[ds[m - 1]]] + KeyText(ds[..m - 1]);
      if m % 5 == 0 && m < 25 then "-" + key else key
  }

  /** What decode_key returns: the key spelled by 25 passes over elements 52 to 66. */
  function DecodeSpec(rpk: seq<Cell>): Result<string, DecodeError> {
    if |rpk| < 67 then Err(ShortInput)
    else
      match Ords(rpk[52..67])
      case None => Err(BadCell)
      case Some(w) => Ok(KeyText(Digits(w, 25)))
  }

  /** decode_key: the input is copied into a working list, which 25 passes of long division by 24
      rewrite in place; each remainder is prepended to the key as a symbol, with a dash after every
      fifth. */
  method DecodeKey(rpk: seq<Cell>) returns (r: Result<string, DecodeError>)
    ensures r == DecodeSpec(rpk)
  {
    DecodeOuter(rpk);
    var cells := rpk;
    var i := 28;
    var key := "";
    while i >= 0
      invariant Outer(cells, i, key) == Outer(rpk, 28, "")
      decreases i + 1
    {
      var pass;
      pass, cells := DividePass(cells);
      if pass.Err? {
        return Err(pass.error);
      }
      var acc := pass.value;
      i := i - 1;
      key := [Alphabet[acc]] + key;
      if (29 - i) % 6 == 0 && i != -1 {
        i := i - 1;
        key := "-" + key;
      }
    }
    r := Ok(key);
  }

  /** The outer loop of decode_key from index `i` on, with the working list `cells` and the key
      built so far. */
  function Outer(cells: seq<Cell>, i: int, key: string): Result<string, DecodeError>
    decreases |cells| + i
  {
    if i < 0 then Ok(key)
    else
      match PassResult(cells)
      case Err(e) => Err(e)
      case Ok((next, acc)) =>
        var i1 := i - 1;
        var key1 := [Alphabet[acc]] + key;
        if (29 - i1) % 6 == 0 && i1 != -1 then Outer(next, i1 - 1, "-" + key1) else Outer(next, i1, key1)
  }

  /** One pass of the inner loop over the whole list: IndexError when it is shorter than 67. */
  function PassResult(cells: seq<Cell>): (r: Result<(seq<Cell>, int), DecodeError>)
    ensures r.Ok? ==> 0 <= r.value.1 < 24 && |r.value.0| == |cells|
  {
    if |cells| < 67 then Err(ShortInput) else Pass(cells, 14, 0)
  }

  /** The inner loop of decode_key: for j from 14 down to 0, one DivideCell step on the cell at
      j + 52. */
  method DividePass(cells: seq<Cell>) returns (r: Result<int, DecodeError>, next: seq<Cell>)
    ensures r.Ok? ==> PassResult(cells) == Ok((next, r.value))
    ensures r.Err? ==> PassResult(cells) == Err(r.error)
  {
    next := cells;
    if |cells| < 67 {
      return Err(ShortInput), next;
    }
    var acc := 0;
    var j := 14;
    while j >= 0
      invariant -1 <= j <= 14 && 0 <= acc < 24 && |next| == |cells|
      invariant Pass(next, j, acc) == Pass(cells, 14, 0)
      decreases j + 1
    {
      var step;
      step, next := DivideCell(next, j, acc);
      if step.Err? {
        return Err(BadCell), next;
      }
      acc := step.value;
      j := j - 1;
    }
    r := Ok(acc);
  }

  /** The body of the inner loop: the accumulator, shifted by a byte, takes the number of the
      cell at j + 52 (ord() of a str); the cell is overwritten with the capped quotient by 24 and
      the remainder is returned, so the rest of the pass goes on from the new list. */
  method DivideCell(cells: seq<Cell>, j: int, acc: int) returns (r: Result<int, DecodeError>, next: seq<Cell>)
    requires |cells| >= 67 && 0 <= j <= 14 && 0 <= acc < 24
    ensures r.Ok? ==> 0 <= r.value < 24 && |next| == |cells| && Pass(cells, j, acc) == Pass(next, j - 1, r.value)
    ensures r.Err? ==> r.error == BadCell && Pass(cells, j, acc) == Err(BadCell)
  {
    next := cells;
    var accumulator := acc * 256;
    var d: int;
    match cells[j + 52] {
      case Num(n) =>
        d := n;
      case Txt(s) =>
        if |s| == 1 {
          d := s[0] as int;
        } else {
          return Err(BadCell), next;
        }
    }
    accumulator := d + accumulator;
    next := next[j + 52 := Num(Clamp(TruncDiv24(accumulator)))];
    r := Ok(accumulator % 24);
  }

  /** The inner loop from element `j` of the window down to element 0, on the working list:
      the list and accumulator it leaves, or TypeError at the first cell without a number. */
  function Pass(cells: seq<Cell>, j: int, acc: int): (r: Result<(seq<Cell>, int), DecodeError>)
    requires |cells| >= 67 && -1 <= j <= 14 && 0 <= acc < 24
    ensures r.Ok? ==> 0 <= r.value.1 < 24 && |r.value.0| == |cells|
    decreases |cells| + j
  {
    if j < 0 then Ok((cells, acc))
    else
      match CellValue(cells[j + 52])
      case None => Err(BadCell)
      case Some(d) =>
        var a := d + acc * 256;
        Pass(cells[j + 52 := Num(Clamp(TruncDiv24(a)))], j - 1, a % 24)
  }

  /** The pass from element `j` down, read on the numbers `v` of the cells it consumes: the cells
      of elements 0 to j become the quotients Divide computes, the rest of the list is kept, and
      the accumulator ends as Divide's. */
  lemma {:induction false} PassValues(cells: seq<Cell>, j: int, acc: int, v: seq<int>)
    requires |cells| >= 67 && -1 <= j <= 14 && 0 <= acc < 24 && j < |v|
    requires forall k :: 0 <= k <= j ==> CellValue(cells[k + 52]) == Some(v[k])
    ensures Pass(cells, j, acc).Ok?
    ensures var next := Pass(cells, j, acc).value.0;
      && |next| == |cells|
      && (forall k :: 0 <= k < |cells| && !(52 <= k <= j + 52) ==> next[k] == cells[k])
      && (forall k :: 52 <= k <= j + 52 ==> next[k] == Num(Divide(v, j + 1, acc).0[k - 52]))
      && Pass(cells, j, acc).value.1 == Divide(v, j + 1, acc).1
    decreases j + 1
  {
    if j >= 0 {
      var a := v[j] + acc * 256;
      var q := Clamp(TruncDiv24(a));
      var cells' := cells[j + 52 := Num(q)];
      assert Pass(cells, j, acc) == Pass(cells', j - 1, a % 24);
      PassValues(cells', j - 1, a % 24, v);
      var next := Pass(cells', j - 1, a % 24).value.0;
      var rest := Divide(v, j, a % 24);
      assert Divide(v, j + 1, acc).0 == rest.0 + [q];
      assert next[j + 52] == Num(q);
    }
  }

  /** A pass fails when a cell it consumes has no number. */
  lemma {:induction false} PassFails(cells: seq<Cell>, j: int, acc: int, bad: int)
    requires |cells| >= 67 && -1 <= j <= 14 && 0 <= acc < 24
    requires 0 <= bad <= j && CellValue(cells[bad + 52]).None?
    ensures Pass(cells, j, acc) == Err(BadCell)
    decreases j + 1
  {
    if bad < j {
      match CellValue(cells[j + 52])
      case None =>
      case Some(d) =>
        var a := d + acc * 256;
        PassFails(cells[j + 52 := Num(Clamp(TruncDiv24(a)))], j - 1, a % 24, bad);
    }
  }

  /** The whole pass on the window 52 to 66 fails exactly when a cell of the window has no number. */
  lemma PassWindowFails(cells: seq<Cell>)
    requires |cells| >= 67
    ensures Ords(cells[52..67]).None? <==> Pass(cells, 14, 0).Err?
    ensures Pass(cells, 14, 0).Err? ==> Pass(cells, 14, 0).error == BadCell
  {
    var w := cells[52..67];
    OrdsValues(w);
    if Ords(w).None? {
      var bad :| 0 <= bad < 15 && CellValue(w[bad]).None?;
      PassFails(cells, 14, 0, bad);
    } else {
      PassValues(cells, 14, 0, Ords(w).value);
    }
  }

  /** The whole pass on the window 52 to 66, when it succeeds, in terms of Ords and Divide. */
  lemma PassWindow(cells: seq<Cell>)
    requires |cells| >= 67 && Ords(cells[52..67]).Some?
    ensures var v := Ords(cells[52..67]).value;
      && Pass(cells, 14, 0).Ok?
      && var next := Pass(cells, 14, 0).value.0;
      && Pass(cells, 14, 0).value.1 == Divide(v, 15, 0).1
      && |next| == |cells| && Ords(next[52..67]) == Some(Divide(v, 15, 0).0)
      && forall k :: 0 <= k < |cells| && !(52 <= k < 67) ==> next[k] == cells[k]
  {
    var w := cells[52..67];
    var v := Ords(w).value;
    OrdsValues(w);
    assert forall k :: 0 <= k <= 14 ==> CellValue(cells[k + 52]) == Some(v[k]) by {
      forall k | 0 <= k <= 14 ensures CellValue(cells[k + 52]) == Some(v[k]) {
        assert w[k] == cells[k + 52];
      }
    }
    PassValues(cells, 14, 0, v);
    var next := Pass(cells, 14, 0).value.0;
    var out := Divide(v, 15, 0).0;
    assert forall k :: 0 <= k < 15 ==> next[52..67][k] == Num(out[k]) by {
      forall k | 0 <= k < 15 ensures next[52..67][k] == Num(out[k]) {
        assert next[52..67][k] == next[k + 52];
      }
    }
    OrdsOfNums(next[52..67], out);
  }

  /** The bookkeeping of the outer loop: with `m` symbols produced and the index at `i`, the
      dash test after the next symbol holds exactly after the 5th, 10th, 15th and 20th symbol, and
      the index keeps counting the symbols and dashes still to come. */
  lemma DashRule(m: int, i: int)
    requires 0 <= m < 25 && i == 28 - m - Dashes(m)
    ensures i >= 0
    ensures ((29 - (i - 1)) % 6 == 0 && i - 1 != -1) <==> ((m + 1) % 5 == 0 && m + 1 < 25)
    ensures ((29 - (i - 1)) % 6 == 0 && i - 1 != -1) ==> i - 2 == 28 - (m + 1) - Dashes(m + 1)
    ensures !((29 - (i - 1)) % 6 == 0 && i - 1 != -1) ==> i - 1 == 28 - (m + 1) - Dashes(m + 1)
  {
    var q := m / 5;
    var s := m % 5;
    assert m == 5 * q + s;
  }

  /** One turn of the outer loop of decode_key, after `m` symbols: the next symbol is the
      remainder of the next pass, and the index and key the loop body leaves are those of `m + 1`
      symbols. */
  lemma OuterStep(w0: seq<int>, m: int, i: int, key: string)
    requires |w0| == 15 && 0 <= m < 25 && i == 28 - m - Dashes(m)
    requires key == KeyText(Digits(w0, m))
    ensures i >= 0
    ensures var key1 := [Alphabet[Divide(After(w0, m), 15, 0).1]] + key;
      if (29 - (i - 1)) % 6 == 0 && i - 1 != -1 then
        i - 2 == 28 - (m + 1) - Dashes(m + 1) && "-" + key1 == KeyText(Digits(w0, m + 1))
      else
        i - 1 == 28 - (m + 1) - Dashes(m + 1) && key1 == KeyText(Digits(w0, m + 1))
  {
    DashRule(m, i);
    var ds := Digits(w0, m + 1);
    assert ds[..m] == Digits(w0, m);
  }

  /** One turn of the outer loop on a list of at least 67 cells whose pass succeeds. */
  lemma OuterUnfold(cells: seq<Cell>, i: int, key: string)
    requires i >= 0 && |cells| >= 67 && Pass(cells, 14, 0).Ok?
    ensures var next := Pass(cells, 14, 0).value.0;
      var key1 := [Alphabet[Pass(cells, 14, 0).value.1]] + key;
      Outer(cells, i, key)
      == if (29 - (i - 1)) % 6 == 0 && i - 1 != -1 then Outer(next, i - 2, "-" + key1) else Outer(next, i - 1, key1)
  {
  }

  /** One turn of the outer loop from the state after `m` symbols, with the window holding the
      numbers the first `m` passes leave, reaches the state after `m + 1` symbols. */
  lemma OuterTurn(w0: seq<int>, m: int, cells: seq<Cell>, i: int, key: string)
    returns (next: seq<Cell>, i': int, key': string)
    requires |w0| == 15 && 0 <= m < 25 && i == 28 - m - Dashes(m)
    requires |cells| >= 67 && Ords(cells[52..67]) == Some(After(w0, m))
    requires key == KeyText(Digits(w0, m))
    ensures |next| >= 67 && Ords(next[52..67]) == Some(After(w0, m + 1))
    ensures i' == 28 - (m + 1) - Dashes(m + 1) && key' == KeyText(Digits(w0, m + 1))
    ensures Outer(cells, i, key) == Outer(next, i', key')
  {
    OuterStep(w0, m, i, key);
    PassWindow(cells);
    OuterUnfold(cells, i, key);
    next := Pass(cells, 14, 0).value.0;
    var acc := Pass(cells, 14, 0).value.1;
    assert After(w0, m + 1) == Divide(After(w0, m), 15, 0).0;
    var key1 := [Alphabet[acc]] + key;
    if (29 - (i - 1)) % 6 == 0 && i - 1 != -1 {
      i', key' := i - 2, "-" + key1;
    } else {
      i', key' := i - 1, key1;
    }
  }

  /** The outer loop from the state after `m` symbols ends with the key of all 25 symbols. */
  lemma {:induction false} OuterValues(w0: seq<int>, m: int, cells: seq<Cell>, i: int, key: string)
    requires |w0| == 15 && 0 <= m <= 25 && i == 28 - m - Dashes(m)
    requires |cells| >= 67 && Ords(cells[52..67]) == Some(After(w0, m))
    requires key == KeyText(Digits(w0, m))
    ensures Outer(cells, i, key) == Ok(KeyText(Digits(w0, 25)))
    decreases 25 - m
  {
    if m < 25 {
      var next, i', key' := OuterTurn(w0, m, cells, i, key);
      OuterValues(w0, m + 1, next, i', key');
    } else {
      assert i == -1;
    }
  }

  /** The outer loop started as decode_key starts it computes DecodeSpec. */
  lemma DecodeOuter(rpk: seq<Cell>)
    ensures Outer(rpk, 28, "") == DecodeSpec(rpk)
  {
    if |rpk| >= 67 {
      PassWindowFails(rpk);
      if Ords(rpk[52..67]).Some? {
        OuterValues(Ords(rpk[52..67]).value, 0, rpk, 28, "");
      }
    }
  }

  lemma OrdsOfNums(cells: seq<Cell>, vals: seq<int>)
    requires |cells| == |vals| && forall k :: 0 <= k < |cells| ==> cells[k] == Num(vals[k])
    ensures Ords(cells) == Some(vals)
  {
    var r := Ords(cells);
    OrdsValues(cells);
    assert forall k :: 0 <= k < |cells| ==> CellValue(cells[k]) == Some(vals[k]);
    assert r.Some?;
    assert forall k :: 0 <= k < |cells| ==> r.value[k] == vals[k];
    assert r.value == vals;
  }

  // ---------------------------------------------------------------- what the passes compute

  function Pow256(k: nat): nat {
    if k == 0 then 1 else 256 * Pow256(k - 1)
  }

  function Pow24(k: nat): (r: nat)
    ensures r >= 1
  {
    if k == 0 then 1 else 24 * Pow24(k - 1)
  }

  /** The number the first `n` elements of `w` spell as little-endian base-256 digits. */
  function LittleEndian(w: seq<int>, n: nat): int
    requires n <= |w|
  {
    if n == 0 then 0 else LittleEndian(w, n - 1) + w[n - 1] * Pow256(n - 1)
  }

  /** The number the symbol indexes spell as base-24 digits, the first one least significant. */
  function Base24(ds: seq<Digit>): int {
    if ds == [] then 0 else Base24(ds[..|ds| - 1]) + ds[|ds| - 1] * Pow24(|ds| - 1)
  }

  predicate Bytes(w: seq<int>, n: nat)
    requires n <= |w|
  {
    forall k :: 0 <= k < n ==> 0 <= w[k] < 256
  }

  lemma {:induction false} LittleEndianPrefix(a: seq<int>, b: seq<int>, n: nat)
    requires n <= |a| && n <= |b| && forall k :: 0 <= k < n ==> a[k] == b[k]
    ensures LittleEndian(a, n) == LittleEndian(b, n)
  {
    if n > 0 {
      LittleEndianPrefix(a, b, n - 1);
    }
  }

  /** Rewritten cells stay within 0..255 whenever the numbers read are not negative: the quotient
      is then not negative, and the cap bounds it above. */
  lemma {:induction false} DivideInRange(w: seq<int>, n: nat, acc: int)
    requires n <= |w| && 0 <= acc < 24 && forall k :: 0 <= k < n ==> w[k] >= 0
    ensures Bytes(Divide(w, n, acc).0, n)
  {
    if n > 0 {
      var a := acc * 256 + w[n - 1];
      DivideInRange(w, n - 1, a % 24);
      var rest := Divide(w, n - 1, a % 24).0;
      assert Divide(w, n, acc).0 == rest + [Clamp(TruncDiv24(a))];
    }
  }

  /** On bytes, a pass is exact long division by 24 of the little-endian number, with `acc` as the
      digit above the top: the cap never applies. */
  lemma {:induction false} DivideValue(w: seq<int>, n: nat, acc: int)
    requires n <= |w| && 0 <= acc < 24 && Bytes(w, n)
    ensures 24 * LittleEndian(Divide(w, n, acc).0, n) + Divide(w, n, acc).1 == acc * Pow256(n) + LittleEndian(w, n)
  {
    if n > 0 {
      var a := acc * 256 + w[n - 1];
      var P := Pow256(n - 1);
      var rest := Divide(w, n - 1, a % 24);
      var q0 := a / 24;
      assert 0 <= a < 6144 && Clamp(TruncDiv24(a)) == q0;
      var q := rest.0 + [q0];
      assert Divide(w, n, acc) == (q, rest.1);
      DivideValue(w, n - 1, a % 24);
      LittleEndianPrefix(q, rest.0, n - 1);
      assert LittleEndian(q, n) == LittleEndian(rest.0, n - 1) + q0 * P;
      LongDivisionStep(acc, w[n - 1], P, q0, a % 24, LittleEndian(rest.0, n - 1), LittleEndian(w, n - 1), rest.1);
    }
  }

  /** The arithmetic of one step of long division: the digit `wv` below the remainder `acc` is
      divided into the quotient digit `q0` and the new remainder `m`, and the lower digits then
      contribute `lower` and `r`. */
  lemma LongDivisionStep(acc: int, wv: int, P: int, q0: int, m: int, lower: int, lowerIn: int, r: int)
    requires acc * 256 + wv == 24 * q0 + m
    requires 24 * lower + r == m * P + lowerIn
    ensures 24 * (lower + q0 * P) + r == acc * (256 * P) + (lowerIn + wv * P)
  {
    assert (acc * 256 + wv) * P == (24 * q0 + m) * P;
  }

  /** Byte windows stay byte windows from pass to pass. */
  lemma {:induction false} AfterBytes(w: seq<int>, m: nat)
    requires Bytes(w, |w|)
    ensures Bytes(After(w, m), |w|)
  {
    if m > 0 {
      AfterBytes(w, m - 1);
      DivideInRange(After(w, m - 1), |w|, 0);
    }
  }

  /** For a byte window, the first `m` symbol indexes are the low `m` base-24 digits of the
      window's little-endian number, and the window then holds the rest of that number. */
  lemma {:induction false} Base24Digits(w: seq<int>, m: nat)
    requires Bytes(w, |w|)
    ensures LittleEndian(w, |w|) == Base24(Digits(w, m)) + Pow24(m) * LittleEndian(After(w, m), |w|)
  {
    if m > 0 {
      Base24Digits(w, m - 1);
      var v := After(w, m - 1);
      AfterBytes(w, m - 1);
      DivideValue(v, |w|, 0);
      var ds := Digits(w, m);
      assert ds[..m - 1] == Digits(w, m - 1);
      var x := LittleEndian(After(w, m), |w|);
      var d := Divide(v, |w|, 0).1;
      assert LittleEndian(v, |w|) == 24 * x + d;
      Horner(Pow24(m - 1), x, d);
    }
  }

  lemma Horner(P: int, x: int, d: int)
    ensures P * (24 * x + d) == d * P + (24 * P) * x
  {
  }

  // ---------------------------------------------------------------- the layout of the key

  /** Where the next symbol lands, counted from the end of the key, and whether a dash follows it. */
  lemma SymbolSlot(m: int)
    requires 1 <= m <= 25
    ensures var e := m - 1 + Dashes(m - 1);
      && e % 6 != 5 && e - e / 6 == m - 1
      && (m % 5 == 0 && m < 25 ==> (e + 1) % 6 == 5 && e + 2 == m + Dashes(m))
      && (!(m % 5 == 0 && m < 25) ==> e + 1 == m + Dashes(m))
  {
    var q := (m - 1) / 5;
    var s := (m - 1) % 5;
    assert m - 1 == 5 * q + s;
  }

  /** Read from its end, the key after `|ds|` symbols holds a dash at every sixth place and
      otherwise the symbols in the order they were produced. */
  lemma {:induction false} KeyFromEnd(ds: seq<Digit>)
    requires |ds| <= 25
    ensures |KeyText(ds)| == |ds| + Dashes(|ds|)
    ensures forall e :: 0 <= e < |KeyText(ds)| ==>
      KeyText(ds)[|KeyText(ds)| - 1 - e] == if e % 6 == 5 then '-' else Alphabet[ds[e - e / 6]]
  {
    if ds != [] {
      var m := |ds|;
      var prev := ds[..m - 1];
      KeyFromEnd(prev);
      SymbolSlot(m);
      var before := KeyText(prev);
      var key := KeyText(ds);
      var sym := [Alphabet[ds[m - 1]]] + before;
      assert |sym| == |before| + 1;
      forall e | 0 <= e < |key|
        ensures key[|key| - 1 - e] == if e % 6 == 5 then '-' else Alphabet[ds[e - e / 6]]
      {
        if e < |before| {
          assert key[|key| - 1 - e] == before[|before| - 1 - e];
          if e % 6 != 5 {
            assert prev[e - e / 6] == ds[e - e / 6];
          }
        }
      }
    }
  }

  /** decode_key's shape: 29 characters, five groups of five symbols separated by dashes, the
      symbol at each place being the one produced for it, the last produced first. */
  lemma KeyFormat(ds: seq<Digit>)
    requires |ds| == 25
    ensures |KeyText(ds)| == 29
    ensures forall p :: 0 <= p < 29 ==>
      KeyText(ds)[p] == if p % 6 == 5 then '-' else Alphabet[ds[(28 - p) - (28 - p) / 6]]
  {
    KeyFromEnd(ds);
    var key := KeyText(ds);
    forall p | 0 <= p < 29
      ensures key[p] == if p % 6 == 5 then '-' else Alphabet[ds[(28 - p) - (28 - p) / 6]]
    {
      var e := 28 - p;
      Mirror(p);
      assert key[p] == key[|key| - 1 - e];
    }
  }

  /** Five groups of five symbols from the alphabet, separated by dashes. */
  lemma KeyGroups(ds: seq<Digit>)
    requires |ds| == 25
    ensures |KeyText(ds)| == 29
    ensures forall p :: 0 <= p < 29 ==> (KeyText(ds)[p] == '-' <==> p % 6 == 5)
    ensures forall p :: 0 <= p < 29 && p % 6 != 5 ==> KeyText(ds)[p] in Alphabet
  {
    KeyFormat(ds);
    assert forall k :: 0 <= k < 24 ==> Alphabet[k] != '-';
  }

  lemma Mirror(p: int)
    requires 0 <= p < 29
    ensures ((28 - p) % 6 == 5) == (p % 6 == 5)
  {
    var q := p / 6;
    var s := p % 6;
    assert p == 6 * q + s;
  }

  /** What decode_key returns when it succeeds: a key of the shape above whose symbols spell, most
      significant first, the low 25 base-24 digits of the little-endian number held in elements 52
      to 66 (when these are bytes, as in a DigitalProductId value). */
  lemma DecodeMeaning(rpk: seq<Cell>)
    requires |rpk| >= 67 && Ords(rpk[52..67]).Some?
    ensures var w := Ords(rpk[52..67]).value;
      && DecodeSpec(rpk) == Ok(KeyText(Digits(w, 25)))
      && |KeyText(Digits(w, 25))| == 29
      && (Bytes(w, 15) ==>
          && LittleEndian(w, 15) == Base24(Digits(w, 25)) + Pow24(25) * LittleEndian(After(w, 25), 15)
          && 0 <= Base24(Digits(w, 25)) < Pow24(25))
  {
    var w := Ords(rpk[52..67]).value;
    KeyFormat(Digits(w, 25));
    if Bytes(w, 15) {
      Base24Digits(w, 25);
      Base24Range(Digits(w, 25));
    }
  }

  lemma {:induction false} Base24Range(ds: seq<Digit>)
    ensures 0 <= Base24(ds) < Pow24(|ds|)
  {
    if ds != [] {
      Base24Range(ds[..|ds| - 1]);
      TopDigit(Base24(ds[..|ds| - 1]), ds[|ds| - 1], Pow24(|ds| - 1));
    }
  }

  lemma TopDigit(b: int, d: int, P: int)
    requires 0 <= b < P && 0 <= d < 24
    ensures 0 <= b + d * P < 24 * P
  {
    assert (23 - d) * P >= 0;
  }

  // ---------------------------------------------------------------- the license channel

  /** The channel names get_windows_product_channel tests for, in its order. */
  const Channels: seq<string> := ["VOLUME_MAK", "OEM_SLP", "RETAIL", "OEM_COA_NSLP", "OEM_COA_SLP", "VOLUME", "OEM"]

  /** get_windows_product_channel, given the query result: None when it is not a list; otherwise
      the channel of the upper-cased Description of the first row, and "UNKNOWN" when the row is
      missing (IndexError), has no Description (KeyError) or its Description is not a str
      (AttributeError). */
  function GetWindowsProductChannel(result: Option<seq<Row>>): (r: Option<string>)
    ensures result.None? <==> r.None?
    ensures (result.Some? && (|result.value| == 0 || "Description" !in result.value[0]
               || !result.value[0]["Description"].Text?)) ==> r == Some("UNKNOWN")
    ensures (result.Some? && |result.value| > 0 && "Description" in result.value[0]
             && result.value[0]["Description"].Text?) ==>
      r == Some(ChannelOf(UpperStr(result.value[0]["Description"].s)))
  {
    match result
    case None => None
    case Some(rows) =>
      if |rows| == 0 || "Description" !in rows[0] || !rows[0]["Description"].Text? then Some("UNKNOWN")
      else Some(ChannelOf(UpperStr(rows[0]["Description"].s)))
  }

  /** The tests on the upper-cased description `ld`, in the order the source makes them. */
  function ChannelOf(ld: string): string {
    if Contains(ld, "VOLUME_MAK") then "VOLUME_MAK"
    else if Contains(ld, "OEM_SLP") then "OEM_SLP"
    else if Contains(ld, "RETAIL") then "RETAIL"
    else if Contains(ld, "OEM_COA_NSLP") then "OEM_COA_NSLP"
    else if Contains(ld, "OEM_COA_SLP") then "OEM_COA_SLP"
    else if Contains(ld, "VOLUME") then "VOLUME"
    else if Contains(ld, "OEM") then "OEM"
    else "UNKNOWN"
  }

  /** The index of the first name of `names`, from index `i` on, that occurs in `s`, or |names|
      when none does. */
  function FirstContained(s: string, names: seq<string>, i: nat): (k: nat)
    requires i <= |names|
    ensures i <= k <= |names|
    ensures forall j :: i <= j < k ==> !Contains(s, names[j])
    ensures k < |names| ==> Contains(s, names[k])
    decreases |names| - i
  {
    if i == |names| then i
    else if Contains(s, names[i]) then i
    else FirstContained(s, names, i + 1)
  }

  /** The if-chain is the search for the first channel name of the list that occurs in the
      description; "UNKNOWN" when none does. */
  lemma ChannelIsFirstMatch(ld: string)
    ensures var k := FirstContained(ld, Channels, 0);
      ChannelOf(ld) == if k < |Channels| then Channels[k] else "UNKNOWN"
  {
    var c := Channels;
    assert c[0] == "VOLUME_MAK" && c[1] == "OEM_SLP" && c[2] == "RETAIL" && c[3] == "OEM_COA_NSLP";
    assert c[4] == "OEM_COA_SLP" && c[5] == "VOLUME" && c[6] == "OEM" && |c| == 7;
  }

  // ---------------------------------------------------------------- the key from WMI

  /** get_windows_product_key_from_wmi, given the query result: the first row's
      OA3xOriginalProductKey, or None (Null) when the result is None, empty or lacks the property. */
  function ProductKeyFromWmi(result: Option<seq<Row>>): (r: WmiValue)
    ensures result.Some? && |result.value| > 0 && "OA3xOriginalProductKey" in result.value[0] ==>
      r == result.value[0]["OA3xOriginalProductKey"]
    ensures !(result.Some? && |result.value| > 0 && "OA3xOriginalProductKey" in result.value[0]) ==> r == Null
  {
    if result.Some? && |result.value| > 0 && "OA3xOriginalProductKey" in result.value[0] then
      result.value[0]["OA3xOriginalProductKey"]
    else Null
  }

  // ---------------------------------------------------------------- the key from the registry

  /** `list(value)` of a registry value: a bytes value gives its bytes, a str its characters, a
      list of str its items; an int is not iterable (TypeError). */
  function CellsOf(v: Value): Option<seq<Cell>> {
    match v
    case Bytes(b) => Some(seq(|b|, k requires 0 <= k < |b| => Num(b[k])))
    case Str(s) => Some(seq(|s|, k requires 0 <= k < |s| => Txt([s[k]])))
    case StrList(items) => Some(seq(|items|, k requires 0 <= k < |items| => Txt(items[k])))
    case Int(_) => None
  }

  /** Where Windows keeps the DigitalProductID value. */
  const CurrentVersion: KeyRef := KeyRef(HKEY_LOCAL_MACHINE, ["SOFTWARE", "Microsoft", "Windows NT", "CurrentVersion"])

  /** get_windows_product_key_from_reg: decode_key of the DigitalProductID value read from either
      registry view; None when the value is missing or decoding raises. */
  method ProductKeyFromReg(reg: RegState) returns (r: Option<string>)
    ensures var v := LookupValue(reg, CurrentVersion, "DigitalProductID", Both);
      r == if v.Some? && CellsOf(v.value).Some? && DecodeSpec(CellsOf(v.value).value).Ok? then
        Some(DecodeSpec(CellsOf(v.value).value).value)
      else None
    ensures r.Some? ==> |r.value| == 29
  {
    var value := GetValue(reg, CurrentVersion, "DigitalProductID", Both);
    if value.None? {
      return None;
    }
    var cells := CellsOf(value.value);
    if cells.None? {
      return None;
    }
    var key := DecodeKey(cells.value);
    if key.Err? {
      return None;
    }
    DecodeMeaning(cells.value);
    return Some(key.value);
  }
}
