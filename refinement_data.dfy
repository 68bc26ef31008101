// RefinementData: per-reflection tables of an X-ray refinement, each row a
// two-element array of doubles (modelled as reals), with get/set accessors
// that read and write single entries in place.

module Refinement {

  /** A complex number as its real and imaginary parts. */
  datatype Complex = Complex(re: real, im: real)

  /**
   * The tables whose rows are fixed two-element arrays: `fsigf` (F, sigF)
   * and the complex tables `fc`, `fs`, `fctot`, `fofc2`, `fofc1`, `fd`.
   * `sigmaa` is not among them, because its setter replaces whole rows.
   */
  datatype Table = Fsigf | Fc | Fs | Fctot | Fofc2 | Fofc1 | Fd

  /** What a row array was allocated for: a fixed-row table, or the initial rows of `sigmaa`. */
  datatype Tag = Of(table: Table) | InitialSigmaa

  /** Row k of t is owned by (tag, k) in m, for every k. */
  ghost predicate Owned(t: array<array<real>>, tag: Tag, m: map<object, (Tag, int)>)
    reads t
  {
    forall k :: 0 <= k < t.Length ==> t[k] in m && m[t[k]] == (tag, k)
  }

  /** Every row of t is a two-element array of zeros. */
  ghost predicate ZeroRows(t: array<array<real>>)
    reads t, set k | 0 <= k < t.Length :: t[k]
  {
    forall k :: 0 <= k < t.Length ==> t[k].Length == 2 && t[k][0] == 0.0 && t[k][1] == 0.0
  }

  /** m' keeps every entry of m. */
  ghost predicate Extends(m: map<object, (Tag, int)>, m': map<object, (Tag, int)>)
  {
    forall o :: o in m ==> o in m' && m'[o] == m[o]
  }

  lemma ExtendsTrans(m1: map<object, (Tag, int)>, m2: map<object, (Tag, int)>, m3: map<object, (Tag, int)>)
    requires Extends(m1, m2) && Extends(m2, m3)
    ensures Extends(m1, m3)
  {
  }

  lemma OwnedExtends(t: array<array<real>>, tag: Tag, m: map<object, (Tag, int)>, m': map<object, (Tag, int)>)
    requires Owned(t, tag, m) && Extends(m, m')
    ensures Owned(t, tag, m')
  {
  }

  /**
   * `new double[n][2]`: n newly allocated rows of two zeros. The ghost map
   * records, for the proofs, which table and index each row belongs to.
   */
  method NewTable(n: nat, ghost tag: Tag, ghost owner: map<object, (Tag, int)>)
    returns (t: array<array<real>>, ghost owner': map<object, (Tag, int)>)
    ensures fresh(t) && t.Length == n && ZeroRows(t)
    ensures forall k :: 0 <= k < n ==> fresh(t[k])
    ensures Extends(owner, owner') && Owned(t, tag, owner')
  {
    var zero := new real[2](_ => 0.0);
    t := new array<real>[n](_ => zero);
    owner' := owner;
    var k := 0;
    while k < n
      invariant 0 <= k <= n
      invariant forall j :: 0 <= j < k ==> fresh(t[j]) && t[j].Length == 2 && t[j][0] == 0.0 && t[j][1] == 0.0
      invariant Extends(owner, owner')
      invariant forall j :: 0 <= j < k ==> t[j] in owner' && owner'[t[j]] == (tag, j)
    {
      var row := new real[2](_ => 0.0);
      t[k] := row;
      owner' := owner'[row := (tag, k)];
      k := k + 1;
    }
  }

  /**
   * The eight tables of a new RefinementData, in the order `fsigf`, `fc`,
   * `fs`, `fctot`, `fofc2`, `fofc1`, `fd` and `sigmaa`: all new, every row
   * a new array of two zeros, and every row owned in m by its table and
   * index.
   */
  method NewTables(n: nat)
    returns (a: array<array<real>>, b: array<array<real>>, c: array<array<real>>, d: array<array<real>>,
             e: array<array<real>>, f: array<array<real>>, g: array<array<real>>, h: array<array<real>>,
             ghost m: map<object, (Tag, int)>)
    ensures fresh(a) && fresh(b) && fresh(c) && fresh(d) && fresh(e) && fresh(f) && fresh(g) && fresh(h)
    ensures h != a && h != b && h != c && h != d && h != e && h != f && h != g
    ensures a.Length == n && b.Length == n && c.Length == n && d.Length == n
    ensures e.Length == n && f.Length == n && g.Length == n && h.Length == n
    ensures Owned(a, Of(Fsigf), m) && Owned(b, Of(Fc), m) && Owned(c, Of(Fs), m) && Owned(d, Of(Fctot), m)
    ensures Owned(e, Of(Fofc2), m) && Owned(f, Of(Fofc1), m) && Owned(g, Of(Fd), m)
    ensures Owned(h, InitialSigmaa, m) && forall k :: 0 <= k < n ==> fresh(h[k])
    ensures ZeroRows(a) && ZeroRows(b) && ZeroRows(c) && ZeroRows(d)
    ensures ZeroRows(e) && ZeroRows(f) && ZeroRows(g) && ZeroRows(h)
  {
    ghost var m1, m2, m3, m4, m5, m6, m7;
    a, m1 := NewTable(n, Of(Fsigf), map[]);
    b, m2 := NewTable(n, Of(Fc), m1);
    c, m3 := NewTable(n, Of(Fs), m2);
    d, m4 := NewTable(n, Of(Fctot), m3);
    h, m5 := NewTable(n, InitialSigmaa, m4);
    e, m6 := NewTable(n, Of(Fofc2), m5);
    f, m7 := NewTable(n, Of(Fofc1), m6);
    g, m := NewTable(n, Of(Fd), m7);
    ExtendsTrans(m6, m7, m);
    ExtendsTrans(m5, m6, m);
    ExtendsTrans(m4, m5, m);
    ExtendsTrans(m3, m4, m);
    ExtendsTrans(m2, m3, m);
    ExtendsTrans(m1, m2, m);
    OwnedExtends(a, Of(Fsigf), m1, m);
    OwnedExtends(b, Of(Fc), m2, m);
    OwnedExtends(c, Of(Fs), m3, m);
    OwnedExtends(d, Of(Fctot), m4, m);
    OwnedExtends(h, InitialSigmaa, m5, m);
    OwnedExtends(e, Of(Fofc2), m6, m);
    OwnedExtends(f, Of(Fofc1), m7, m);
  }

  class RefinementData {
    const n: int
    const fsigf: array<array<real>>
    const freer: array<int>
    const fc: array<array<real>>
    const fs: array<array<real>>
    const fctot: array<array<real>>
    const sigmaa: array<array<real>>
    const fofc2: array<array<real>>
    const fofc1: array<array<real>>
    const fd: array<array<real>>
    /** Scaling coefficients, public fields without accessors. */
    var solventK: real
    var solventB: real
    var anisok: array<real>

    /** The outer array of a fixed-row table. */
    function Tab(t: Table): array<array<real>>
    {
      match t
      case Fsigf => fsigf
      case Fc => fc
      case Fs => fs
      case Fctot => fctot
      case Fofc2 => fofc2
      case Fofc1 => fofc1
      case Fd => fd
    }

    /** Which table and index each row of a fixed-row table belongs to. */
    ghost const owner: map<object, (Tag, int)>

    /** The outer arrays of all the tables. */
    ghost function Tables(): set<object>
    {
      {fsigf, fc, fs, fctot, fofc2, fofc1, fd, sigmaa}
    }

    /**
     * Every table has n rows; the rows of the fixed-row tables have two
     * entries and belong to one table and index each, so they are n * 7
     * distinct arrays; `sigmaa` is another array.
     */
    ghost predicate Valid()
      reads Tables()
    {
      0 <= n && freer.Length == n && sigmaa.Length == n
      && fsigf.Length == n && fc.Length == n && fs.Length == n && fctot.Length == n
      && fofc2.Length == n && fofc1.Length == n && fd.Length == n
      && sigmaa != fsigf && sigmaa != fc && sigmaa != fs && sigmaa != fctot
      && sigmaa != fofc2 && sigmaa != fofc1 && sigmaa != fd
      && (forall t, k :: 0 <= k < n ==> Tab(t)[k].Length == 2 && Tab(t)[k] in owner && owner[Tab(t)[k]] == (Of(t), k))
    }

    /**
     * `new RefinementData(n)`: every table entry, flag and coefficient zero.
     * The rows of `sigmaa` are new arrays, distinct from each other and from
     * every row of the fixed-row tables, as `new double[n][2]` allocates them.
     */
    constructor(size: nat)
      ensures Valid() && n == size
      ensures forall t, k, c :: 0 <= k < n && 0 <= c < 2 ==> Tab(t)[k][c] == 0.0
      ensures forall k :: 0 <= k < n ==> freer[k] == 0
      ensures ZeroRows(sigmaa)
      ensures forall k :: 0 <= k < n ==> fresh(sigmaa[k])
      ensures forall j, k :: 0 <= j < k < n ==> sigmaa[j] != sigmaa[k]
      ensures forall t, j, k :: 0 <= j < n && 0 <= k < n ==> sigmaa[k] != Tab(t)[j]
      ensures anisok.Length == 6 && forall k :: 0 <= k < 6 ==> anisok[k] == 0.0
      ensures solventK == 0.0 && solventB == 0.0
    {
      n := size;
      freer := new int[size](_ => 0);
      anisok := new real[6](_ => 0.0);
      var a, b, c, d, e, f, g, h;
      ghost var m;
      a, b, c, d, e, f, g, h, m := NewTables(size);
      fsigf, fc, fs, fctot, fofc2, fofc1, fd, sigmaa := a, b, c, d, e, f, g, h;
      owner := m;
      solventK, solventB := 0.0, 0.0;
      new;
      ValidFromParts();
      SigmaaRowsApart();
    }

    /** Rows owned as the initial sigmaa rows are distinct from each other and from every fixed-table row. */
    lemma SigmaaRowsApart()
      requires Valid() && Owned(sigmaa, InitialSigmaa, owner)
      ensures forall j, k :: 0 <= j < k < n ==> sigmaa[j] != sigmaa[k]
      ensures forall t, j, k :: 0 <= j < n && 0 <= k < n ==> sigmaa[k] != Tab(t)[j]
    {
    }

    /** Valid from the ownership of each table's rows. */
    lemma ValidFromParts()
      requires 0 <= n && freer.Length == n && sigmaa.Length == n
      requires fsigf.Length == n && fc.Length == n && fs.Length == n && fctot.Length == n
      requires fofc2.Length == n && fofc1.Length == n && fd.Length == n
      requires sigmaa != fsigf && sigmaa != fc && sigmaa != fs && sigmaa != fctot
      requires sigmaa != fofc2 && sigmaa != fofc1 && sigmaa != fd
      requires ZeroRows(fsigf) && ZeroRows(fc) && ZeroRows(fs) && ZeroRows(fctot)
      requires ZeroRows(fofc2) && ZeroRows(fofc1) && ZeroRows(fd)
      requires Owned(fsigf, Of(Fsigf), owner) && Owned(fc, Of(Fc), owner) && Owned(fs, Of(Fs), owner)
      requires Owned(fctot, Of(Fctot), owner) && Owned(fofc2, Of(Fofc2), owner)
      requires Owned(fofc1, Of(Fofc1), owner) && Owned(fd, Of(Fd), owner)
      ensures Valid()
      ensures forall t, k, c :: 0 <= k < n && 0 <= c < 2 ==> Tab(t)[k][c] == 0.0
    {
      forall t, k | 0 <= k < n
        ensures Tab(t)[k].Length == 2 && Tab(t)[k][0] == 0.0 && Tab(t)[k][1] == 0.0
        ensures Tab(t)[k] in owner && owner[Tab(t)[k]] == (Of(t), k)
      {
      }
    }

    /** An entry of a fixed-row table. */
    function Cell(t: Table, i: int, c: int): real
      requires Valid() && 0 <= i < n && 0 <= c < 2
      reads Tables(), Tab(t)[i]
    {
      Tab(t)[i][c]
    }

    /** `f(i)`. */
    function F(i: int): (r: real)
      requires Valid() && 0 <= i < n
      reads Tables(), fsigf[i]
      ensures r == FsigfRow(i)[0]
    {
      Cell(Fsigf, i, 0)
    }

    /** `sigf(i)`. */
    function Sigf(i: int): (r: real)
      requires Valid() && 0 <= i < n
      reads Tables(), fsigf[i]
      ensures r == FsigfRow(i)[1]
    {
      Cell(Fsigf, i, 1)
    }

    /** `fsigf(i)`: the row itself, not a copy. */
    function FsigfRow(i: int): (r: array<real>)
      requires Valid() && 0 <= i < n
      reads Tables()
      ensures r.Length == 2
    {
      Tab(Fsigf)[i]
    }

    /** `fc(i)`, `fs(i)`, `fctot(i)`, `fofc2(i)`, `fofc1(i)`, `fd(i)`: a new Complex from the row. */
    function GetComplex(t: Table, i: int): (r: Complex)
      requires Valid() && 0 <= i < n && t != Fsigf
      reads Tables(), Tab(t)[i]
      ensures r.re == Cell(t, i, 0) && r.im == Cell(t, i, 1)
    {
      Complex(Tab(t)[i][0], Tab(t)[i][1])
    }

    /** `f(i, v)`: sets F of reflection i and no other entry. */
    method SetF(i: int, v: real)
      requires Valid() && 0 <= i < n
      modifies fsigf[i]
      ensures Valid() && F(i) == v && Sigf(i) == old(Sigf(i))
      ensures forall t, j, c :: 0 <= j < n && 0 <= c < 2 && (t, j, c) != (Fsigf, i, 0) ==> Cell(t, j, c) == old(Cell(t, j, c))
    {
      Tab(Fsigf)[i][0] := v;
    }

    /** `sigf(i, v)`: sets sigF of reflection i and no other entry. */
    method SetSigf(i: int, v: real)
      requires Valid() && 0 <= i < n
      modifies fsigf[i]
      ensures Valid() && Sigf(i) == v && F(i) == old(F(i))
      ensures forall t, j, c :: 0 <= j < n && 0 <= c < 2 && (t, j, c) != (Fsigf, i, 1) ==> Cell(t, j, c) == old(Cell(t, j, c))
    {
      Tab(Fsigf)[i][1] := v;
    }

    /**
     * `fc(i, c)`, `fs(i, c)`, `fctot(i, c)`, `fofc2(i, c)`, `fofc1(i, c)`,
     * `fd(i, c)`: stores the real part in column 0 and the imaginary part in
     * column 1 of row i of that table, so the getter gives back `c`.
     */
    method SetComplex(t: Table, i: int, z: Complex)
      requires Valid() && 0 <= i < n && t != Fsigf
      modifies Tab(t)[i]
      ensures Valid() && GetComplex(t, i) == z
      ensures forall u, j, c :: 0 <= j < n && 0 <= c < 2 && (u != t || j != i) ==> Cell(u, j, c) == old(Cell(u, j, c))
    {
      Tab(t)[i][0] := z.re;
      Tab(t)[i][1] := z.im;
    }

    /** `freer(i)`. */
    function Freer(i: int): (r: int)
      requires Valid() && 0 <= i < n
      reads Tables(), freer
      ensures IsFreerFlag(i, r) && (IsFreer(i) <==> r == 1)
    {
      freer[i]
    }

    /** `isfreer(i, f)`: the flag of reflection i is f. */
    predicate IsFreerFlag(i: int, f: int)
      requires Valid() && 0 <= i < n
      reads Tables(), freer
    {
      freer[i] == f
    }

    /** `isfreer(i)`: reflection i is in the free-R set, flag 1. */
    predicate IsFreer(i: int)
      requires Valid() && 0 <= i < n
      reads Tables(), freer
      ensures IsFreer(i) <==> IsFreerFlag(i, 1)
    {
      freer[i] == 1
    }

    /** `freer(i, f)`: sets the flag of reflection i and no other. */
    method SetFreer(i: int, f: int)
      requires Valid() && 0 <= i < n
      modifies freer
      ensures Valid() && Freer(i) == f && IsFreerFlag(i, f)
      ensures IsFreer(i) <==> f == 1
      ensures forall j :: 0 <= j < n && j != i ==> Freer(j) == old(Freer(j))
    {
      freer[i] := f;
    }

    /** `sigmaa(i)`: the row itself. */
    function SigmaaRow(i: int): (r: array<real>)
      requires Valid() && 0 <= i < n
      reads Tables()
      ensures r == sigmaa[i]
    {
      sigmaa[i]
    }

    /**
     * `sigmaa(i, d)`: row i becomes the caller's array itself; no entry of
     * any table changes.
     */
    method SetSigmaaRow(i: int, d: array<real>)
      requires Valid() && 0 <= i < n
      modifies sigmaa
      ensures Valid() && SigmaaRow(i) == d
      ensures forall j :: 0 <= j < n && j != i ==> SigmaaRow(j) == old(SigmaaRow(j))
      ensures forall t, j, c :: 0 <= j < n && 0 <= c < 2 ==> Cell(t, j, c) == old(Cell(t, j, c))
    {
      sigmaa[i] := d;
    }

    /** `ssigmaa(i)`: column 0 of sigmaa row i. */
    function Ssigmaa(i: int): (r: real)
      requires Valid() && 0 <= i < n && sigmaa[i].Length >= 1
      reads Tables(), sigmaa[i]
      ensures r == SigmaaRow(i)[0]
    {
      sigmaa[i][0]
    }

    /** `wsigmaa(i)`: column 1 of sigmaa row i. */
    function Wsigmaa(i: int): (r: real)
      requires Valid() && 0 <= i < n && sigmaa[i].Length >= 2
      reads Tables(), sigmaa[i]
      ensures r == SigmaaRow(i)[1]
    {
      sigmaa[i][1]
    }

    /**
     * `ssigmaa(i, v)`: writes column 0 of whatever array is sigmaa row i.
     * An entry of a fixed-row table changes exactly when that row is this
     * same array.
     */
    method SetSsigmaa(i: int, v: real)
      requires Valid() && 0 <= i < n && sigmaa[i].Length >= 1
      modifies sigmaa[i]
      ensures Valid() && Ssigmaa(i) == v
      ensures forall c :: 1 <= c < sigmaa[i].Length ==> sigmaa[i][c] == old(sigmaa[i][c])
      ensures forall t, j, c :: 0 <= j < n && 0 <= c < 2 ==>
                Cell(t, j, c) == if Tab(t)[j] == sigmaa[i] && c == 0 then v else old(Cell(t, j, c))
    {
      sigmaa[i][0] := v;
    }

    /**
     * `wsigmaa(i, v)`: writes column 1 of whatever array is sigmaa row i.
     * An entry of a fixed-row table changes exactly when that row is this
     * same array.
     */
    method SetWsigmaa(i: int, v: real)
      requires Valid() && 0 <= i < n && sigmaa[i].Length >= 2
      modifies sigmaa[i]
      ensures Valid() && Wsigmaa(i) == v
      ensures forall c :: 0 <= c < sigmaa[i].Length && c != 1 ==> sigmaa[i][c] == old(sigmaa[i][c])
      ensures forall t, j, c :: 0 <= j < n && 0 <= c < 2 ==>
                Cell(t, j, c) == if Tab(t)[j] == sigmaa[i] && c == 1 then v else old(Cell(t, j, c))
    {
      sigmaa[i][1] := v;
    }

    /**
     * `sigmaa(i, d)` followed by `ssigmaa(i, v)` writes into the caller's
     * array d.
     */
    method SigmaaRowIsShared(i: int, d: array<real>, v: real)
      requires Valid() && 0 <= i < n && d.Length >= 1
      modifies sigmaa, d
      ensures Valid() && d[0] == v
    {
      SetSigmaaRow(i, d);
      SetSsigmaa(i, v);
    }

    /**
     * Handing the fsigf row of reflection j to `sigmaa(i, ..)` makes a later
     * `ssigmaa(i, v)` set F of reflection j.
     */
    method SigmaaAliasesFsigf(i: int, j: int, v: real)
      requires Valid() && 0 <= i < n && 0 <= j < n
      modifies sigmaa, fsigf[j]
      ensures Valid() && F(j) == v && Sigf(j) == old(Sigf(j))
    {
      SetSigmaaRow(i, FsigfRow(j));
      SetSsigmaa(i, v);
    }
  }

  /**
   * On a new RefinementData, `ssigmaa(i, v)` writes only its own sigmaa row:
   * every fixed-row table keeps its zeros and every other sigmaa row too.
   */
  method NewThenSsigmaa(size: nat, i: int, v: real) returns (d: RefinementData)
    requires 0 <= i < size
    ensures fresh(d) && d.Valid() && d.n == size && d.sigmaa[i].Length == 2 && d.Ssigmaa(i) == v
    ensures forall t, j, c :: 0 <= j < size && 0 <= c < 2 ==> d.Cell(t, j, c) == 0.0
    ensures forall j :: 0 <= j < size && j != i ==> d.sigmaa[j].Length == 2 && d.sigmaa[j][0] == 0.0 && d.sigmaa[j][1] == 0.0
  {
    d := new RefinementData(size);
    d.SetSsigmaa(i, v);
  }
}
