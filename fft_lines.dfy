/**
 * Strided lines of complex samples in a flat array of doubles, and passes made
 * of 1-D transforms over such lines.
 *
 * A 1-D transform of the engine (Complex.fft / Complex.ifft, not part of this
 * model) reads the n samples of one line and overwrites exactly those samples.
 * It is modelled as a length-preserving function on the sequence of samples.
 * A pass of the 3-D FFT is a list of jobs (a line and what to do with it) run
 * in order; the lemmas at the end say what a pass leaves alone, what it
 * depends on, and when two passes may run in either order.
 */
module FftLines {

  /** One complex sample. Doubles are modelled as mathematical reals. */
  datatype Cx = Cx(re: real, im: real)

  /**
   * An abstract 1-D transform, given by output sample k as a function of the
   * n input samples; applied to n samples it yields n samples.
   */
  type LineTransform = (seq<Cx>, int) -> Cx

  /** The n output samples of f on the n samples v. */
  function Apply(f: LineTransform, v: seq<Cx>): (w: seq<Cx>)
    ensures |w| == |v|
    ensures forall k :: 0 <= k < |v| ==> w[k] == f(v, k)
  {
    seq(|v|, k => f(v, k))
  }

  /** f leaves every line as it is. */
  ghost predicate IsIdentity(f: LineTransform)
  {
    forall v: seq<Cx>, k :: 0 <= k < |v| ==> f(v, k) == v[k]
  }

  /** The forward and inverse 1-D transforms of the engine. */
  datatype Engine = Engine(fwd: LineTransform, inv: LineTransform)

  /**
   * n samples; the real part of sample k is at off + k*stride and its
   * imaginary part im further on.
   */
  datatype Line = Line(off: int, stride: int, im: int, n: nat)
  {
    function Re(k: int): int { off + k * stride }

    function Im(k: int): int { off + k * stride + im }

    /** Address j belongs to this line. */
    ghost predicate Hits(j: int)
    {
      exists k :: 0 <= k < n && (j == Re(k) || j == Im(k))
    }

    /** All addresses of the line lie in an array of length len. */
    ghost predicate Fits(len: int)
    {
      forall k :: 0 <= k < n ==> 0 <= Re(k) < len && 0 <= Im(k) < len
    }

    /** The 2n addresses of the line are pairwise distinct. */
    ghost predicate Distinct()
    {
      forall k, k' :: 0 <= k < n && 0 <= k' < n ==>
        Re(k) != Im(k') && (k != k' ==> Re(k) != Re(k') && Im(k) != Im(k'))
    }

    ghost predicate Ok(len: int)
    {
      Fits(len) && Distinct()
    }
  }

  lemma LineStep(L: Line, k: int)
    ensures L.Re(k + 1) == L.Re(k) + L.stride
  {
    assert (k + 1) * L.stride == k * L.stride + L.stride;
  }

  /** The samples of line L in s. */
  function Gather(s: seq<real>, L: Line): (v: seq<Cx>)
    requires L.Fits(|s|)
    ensures |v| == L.n
    ensures forall k :: 0 <= k < L.n ==> v[k] == Cx(s[L.Re(k)], s[L.Im(k)])
  {
    seq(L.n, k requires 0 <= k < L.n => Cx(s[L.Re(k)], s[L.Im(k)]))
  }

  /** s with the first m samples of line L overwritten by v, in index order. */
  function Scatter(s: seq<real>, L: Line, v: seq<Cx>, m: nat): (t: seq<real>)
    requires L.Fits(|s|) && m <= L.n && |v| == L.n
    ensures |t| == |s|
  {
    if m == 0 then s
    else Scatter(s, L, v, m - 1)[L.Re(m - 1) := v[m - 1].re][L.Im(m - 1) := v[m - 1].im]
  }

  /** One more sample of the line: the two slots of sample m overwritten. */
  lemma ScatterStep(s: seq<real>, L: Line, v: seq<Cx>, m: nat)
    requires L.Fits(|s|) && m < L.n && |v| == L.n
    ensures Scatter(s, L, v, m + 1) == Scatter(s, L, v, m)[L.Re(m) := v[m].re][L.Im(m) := v[m].im]
  {
  }

  /** Addresses that none of the first m samples of L use are left alone. */
  lemma {:induction false} ScatterOutside(s: seq<real>, L: Line, v: seq<Cx>, m: nat, j: int)
    requires L.Fits(|s|) && m <= L.n && |v| == L.n && 0 <= j < |s|
    requires forall k :: 0 <= k < m ==> j != L.Re(k) && j != L.Im(k)
    ensures Scatter(s, L, v, m)[j] == s[j]
  {
    if m > 0 {
      ScatterOutside(s, L, v, m - 1, j);
    }
  }

  /** After scattering m samples, sample k < m holds v[k]. */
  lemma {:induction false} ScatterAt(s: seq<real>, L: Line, v: seq<Cx>, m: nat, k: int)
    requires L.Fits(|s|) && L.Distinct() && m <= L.n && |v| == L.n && 0 <= k < m
    ensures Scatter(s, L, v, m)[L.Re(k)] == v[k].re
    ensures Scatter(s, L, v, m)[L.Im(k)] == v[k].im
  {
    if k < m - 1 {
      ScatterAt(s, L, v, m - 1, k);
    }
  }

  /** Sample m of a line is still unwritten after the first m samples are scattered. */
  lemma ScatterUntouched(s: seq<real>, L: Line, v: seq<Cx>, m: nat)
    requires L.Ok(|s|) && m < L.n && |v| == L.n
    ensures Scatter(s, L, v, m)[L.Re(m)] == s[L.Re(m)]
    ensures Scatter(s, L, v, m)[L.Im(m)] == s[L.Im(m)]
  {
    ScatterOutside(s, L, v, m, L.Re(m));
    ScatterOutside(s, L, v, m, L.Im(m));
  }

  /** Scattering then gathering the same line gives back what was scattered. */
  lemma GatherScatter(s: seq<real>, L: Line, v: seq<Cx>)
    requires L.Ok(|s|) && |v| == L.n
    ensures Gather(Scatter(s, L, v, L.n), L) == v
  {
    forall k | 0 <= k < L.n
      ensures Gather(Scatter(s, L, v, L.n), L)[k] == v[k]
    {
      ScatterAt(s, L, v, L.n, k);
    }
  }

  /** One slot after two scatters over the same line holds what the second one wrote there. */
  lemma ScatterTwiceAt(s: seq<real>, L: Line, v: seq<Cx>, w: seq<Cx>, j: int)
    requires L.Ok(|s|) && |v| == L.n && |w| == L.n && 0 <= j < |s|
    ensures Scatter(Scatter(s, L, v, L.n), L, w, L.n)[j] == Scatter(s, L, w, L.n)[j]
  {
    var t := Scatter(s, L, v, L.n);
    if k :| 0 <= k < L.n && (j == L.Re(k) || j == L.Im(k)) {
      ScatterAt(t, L, w, L.n, k);
      ScatterAt(s, L, w, L.n, k);
    } else {
      ScatterOutside(t, L, w, L.n, j);
      ScatterOutside(s, L, w, L.n, j);
      ScatterOutside(s, L, v, L.n, j);
    }
  }

  lemma SameSlots(a: seq<real>, b: seq<real>)
    requires |a| == |b| && forall j :: 0 <= j < |a| ==> a[j] == b[j]
    ensures a == b
  {
  }

  /** Scattering over a line a second time overwrites everything the first scatter wrote. */
  lemma ScatterTwice(s: seq<real>, L: Line, v: seq<Cx>, w: seq<Cx>)
    requires L.Ok(|s|) && |v| == L.n && |w| == L.n
    ensures Scatter(Scatter(s, L, v, L.n), L, w, L.n) == Scatter(s, L, w, L.n)
  {
    var a, b := Scatter(Scatter(s, L, v, L.n), L, w, L.n), Scatter(s, L, w, L.n);
    forall j | 0 <= j < |s| ensures a[j] == b[j] {
      ScatterTwiceAt(s, L, v, w, j);
    }
    SameSlots(a, b);
  }

  /** Gathering a line and scattering it straight back changes nothing. */
  lemma {:induction false} ScatterGather(s: seq<real>, L: Line, m: nat)
    requires L.Fits(|s|) && m <= L.n
    ensures Scatter(s, L, Gather(s, L), m) == s
  {
    if m > 0 {
      ScatterGather(s, L, m - 1);
    }
  }

  // Passes: lists of jobs.

  /** What a job does to the samples of its line. */
  datatype Kind = Forward | Inverse | Convolve(kernel: seq<real>)

  datatype Job = Job(line: Line, kind: Kind)

  /** One sample times a real factor. */
  function Times(c: Cx, f: real): Cx
  {
    Cx(c.re * f, c.im * f)
  }

  /** Multiplies each sample by the matching real factor. */
  function Scale(v: seq<Cx>, r: seq<real>): (w: seq<Cx>)
    requires |r| == |v|
    ensures |w| == |v|
    ensures forall k :: 0 <= k < |v| ==> w[k] == Times(v[k], r[k])
  {
    seq(|v|, k requires 0 <= k < |v| => Times(v[k], r[k]))
  }

  /** The samples a job writes, given the samples it reads. */
  function Transform(e: Engine, kind: Kind, v: seq<Cx>): (w: seq<Cx>)
    requires kind.Convolve? ==> |kind.kernel| == |v|
    ensures |w| == |v|
  {
    match kind
    case Forward => Apply(e.fwd, v)
    case Inverse => Apply(e.inv, v)
    case Convolve(r) => Apply(e.inv, Scale(Apply(e.fwd, v), r))
  }

  /** Sample k of v, the output of a 1-D transform that changes nothing. */
  function Keep(v: seq<Cx>, k: int): Cx
  {
    if 0 <= k < |v| then v[k] else Cx(0.0, 0.0)
  }

  /**
   * The engine whose 1-D transforms change nothing: under it a convolution
   * job only multiplies its line by the kernel.
   */
  function Scaler(): (e: Engine)
    ensures IsIdentity(e.fwd) && IsIdentity(e.inv)
  {
    Engine(Keep, Keep)
  }

  /** Under the scaler, a convolution job's samples are the samples it reads, scaled. */
  lemma ScalerScales(v: seq<Cx>, r: seq<real>)
    requires |r| == |v|
    ensures Transform(Scaler(), Convolve(r), v) == Scale(v, r)
  {
    var u := Apply(Scaler().fwd, v);
    assert u == v;
    var w := Scale(v, r);
    assert Apply(Scaler().inv, w) == w;
  }

  ghost predicate JobOk(j: Job, len: int)
  {
    j.line.Ok(len) && (j.kind.Convolve? ==> |j.kind.kernel| == j.line.n)
  }

  /**
   * A convolution job on line L is a forward job on L, then L scaled by the
   * kernel (a convolution job under the scaler), then an inverse job on L:
   * the three steps of FFTZIZLoop for one pencil.
   */
  lemma ConvolveSteps(e: Engine, s: seq<real>, L: Line, r: seq<real>)
    requires L.Ok(|s|) && |r| == L.n
    ensures RunJob(e, s, Job(L, Convolve(r)))
         == RunJob(e, RunJob(Scaler(), RunJob(e, s, Job(L, Forward)), Job(L, Convolve(r))), Job(L, Inverse))
  {
    var f := Apply(e.fwd, Gather(s, L));
    var t1 := RunJob(e, s, Job(L, Forward));
    assert t1 == Scatter(s, L, f, L.n);
    GatherScatter(s, L, f);
    ScalerScales(f, r);
    var t2 := RunJob(Scaler(), t1, Job(L, Convolve(r)));
    assert t2 == Scatter(t1, L, Scale(f, r), L.n);
    GatherScatter(t1, L, Scale(f, r));
    var g := Apply(e.inv, Scale(f, r));
    assert RunJob(e, t2, Job(L, Inverse)) == Scatter(t2, L, g, L.n);
    ScatterTwice(t1, L, Scale(f, r), g);
    ScatterTwice(s, L, f, g);
  }

  ghost predicate JobsOk(js: seq<Job>, len: int)
  {
    forall i {:trigger JobOk(js[i], len)} :: 0 <= i < |js| ==> JobOk(js[i], len)
  }

  function RunJob(e: Engine, s: seq<real>, j: Job): (t: seq<real>)
    requires JobOk(j, |s|)
    ensures |t| == |s|
  {
    Scatter(s, j.line, Transform(e, j.kind, Gather(s, j.line)), j.line.n)
  }

  /** Runs the jobs one after the other, first to last. */
  function RunJobs(e: Engine, s: seq<real>, js: seq<Job>): (t: seq<real>)
    requires JobsOk(js, |s|)
    ensures |t| == |s|
  {
    if |js| == 0 then s
    else RunJob(e, RunJobs(e, s, js[..|js| - 1]), js[|js| - 1])
  }

  /** Address j belongs to some job of js. */
  ghost predicate HitsAny(js: seq<Job>, j: int)
  {
    exists i :: 0 <= i < |js| && js[i].line.Hits(j)
  }

  lemma RunJobsSnoc(e: Engine, s: seq<real>, js: seq<Job>, j: Job)
    requires JobsOk(js + [j], |s|)
    ensures JobsOk(js, |s|) && JobOk(j, |s|)
    ensures RunJobs(e, s, js + [j]) == RunJob(e, RunJobs(e, s, js), j)
  {
    assert (js + [j])[..|js|] == js;
    assert (js + [j])[|js|] == j;
  }

  /** Running A then B is running A + B. */
  lemma {:induction false} RunJobsAppend(e: Engine, s: seq<real>, a: seq<Job>, b: seq<Job>)
    requires JobsOk(a + b, |s|)
    ensures JobsOk(a, |s|) && JobsOk(b, |s|)
    ensures RunJobs(e, s, a + b) == RunJobs(e, RunJobs(e, s, a), b)
  {
    forall i | 0 <= i < |b| ensures JobOk(b[i], |s|) {
      assert b[i] == (a + b)[|a| + i];
    }
    if |b| == 0 {
      assert a + b == a;
    } else {
      var b', last := b[..|b| - 1], b[|b| - 1];
      assert b == b' + [last];
      assert a + b == (a + b') + [last];
      RunJobsSnoc(e, s, a + b', last);
      RunJobsAppend(e, s, a, b');
      RunJobsSnoc(e, RunJobs(e, s, a), b', last);
    }
  }

  lemma HitsAnyAppend(a: seq<Job>, b: seq<Job>, j: int)
    ensures HitsAny(a + b, j) <==> HitsAny(a, j) || HitsAny(b, j)
  {
    if HitsAny(a + b, j) {
      var i :| 0 <= i < |a + b| && (a + b)[i].line.Hits(j);
      if i < |a| {
        assert a[i] == (a + b)[i];
      } else {
        assert b[i - |a|] == (a + b)[i];
      }
    }
    if HitsAny(a, j) {
      var i :| 0 <= i < |a| && a[i].line.Hits(j);
      assert (a + b)[i] == a[i];
    }
    if HitsAny(b, j) {
      var i :| 0 <= i < |b| && b[i].line.Hits(j);
      assert (a + b)[|a| + i] == b[i];
    }
  }

  lemma HitsAnySingle(jb: Job, j: int)
    ensures HitsAny([jb], j) <==> jb.line.Hits(j)
  {
    if jb.line.Hits(j) {
      assert [jb][0] == jb;
    }
  }

  lemma HitsLine(L: Line, k: int)
    requires 0 <= k < L.n
    ensures L.Hits(L.Re(k)) && L.Hits(L.Im(k))
  {
  }

  /** One job writes only the addresses of its line. */
  lemma RunJobFrame(e: Engine, s: seq<real>, jb: Job, j: int)
    requires JobOk(jb, |s|) && 0 <= j < |s| && !jb.line.Hits(j)
    ensures RunJob(e, s, jb)[j] == s[j]
  {
    var L := jb.line;
    ScatterOutside(s, L, Transform(e, jb.kind, Gather(s, L)), L.n, j);
  }

  /** A pass writes only addresses that belong to one of its lines. */
  lemma {:induction false} RunJobsFrame(e: Engine, s: seq<real>, js: seq<Job>, j: int)
    requires JobsOk(js, |s|) && 0 <= j < |s| && !HitsAny(js, j)
    ensures RunJobs(e, s, js)[j] == s[j]
  {
    if |js| > 0 {
      var p := js[..|js| - 1];
      assert js == p + [js[|js| - 1]];
      HitsAnyAppend(p, [js[|js| - 1]], j);
      HitsAnySingle(js[|js| - 1], j);
      assert JobsOk(p, |s|);
      RunJobsFrame(e, s, p, j);
      RunJobFrame(e, RunJobs(e, s, p), js[|js| - 1], j);
    }
  }

  /** s and s' hold the same samples on line L. */
  ghost predicate Agree(s: seq<real>, s': seq<real>, L: Line)
    requires L.Fits(|s|) && |s'| == |s|
  {
    forall k :: 0 <= k < L.n ==> s[L.Re(k)] == s'[L.Re(k)] && s[L.Im(k)] == s'[L.Im(k)]
  }

  lemma GatherAgree(s: seq<real>, s': seq<real>, L: Line)
    requires |s| == |s'| && L.Fits(|s|) && Agree(s, s', L)
    ensures Gather(s, L) == Gather(s', L)
  {
    var g, g' := Gather(s, L), Gather(s', L);
    forall k | 0 <= k < L.n ensures g[k] == g'[k] {
    }
  }

  /** Scattering the same samples over a line leaves the same values on it. */
  lemma ScatterSame(s: seq<real>, s': seq<real>, L: Line, v: seq<Cx>, k: int)
    requires |s| == |s'| && L.Ok(|s|) && |v| == L.n && 0 <= k < L.n
    ensures Scatter(s, L, v, L.n)[L.Re(k)] == Scatter(s', L, v, L.n)[L.Re(k)]
    ensures Scatter(s, L, v, L.n)[L.Im(k)] == Scatter(s', L, v, L.n)[L.Im(k)]
  {
    ScatterAt(s, L, v, L.n, k);
    ScatterAt(s', L, v, L.n, k);
  }

  /** One job's output on its line depends only on its input on that line. */
  lemma RunJobLocal(e: Engine, s: seq<real>, s': seq<real>, jb: Job, k: int)
    requires |s| == |s'| && JobOk(jb, |s|) && Agree(s, s', jb.line)
    requires 0 <= k < jb.line.n
    ensures RunJob(e, s, jb)[jb.line.Re(k)] == RunJob(e, s', jb)[jb.line.Re(k)]
    ensures RunJob(e, s, jb)[jb.line.Im(k)] == RunJob(e, s', jb)[jb.line.Im(k)]
  {
    GatherAgree(s, s', jb.line);
    ScatterSame(s, s', jb.line, Transform(e, jb.kind, Gather(s, jb.line)), k);
  }

  lemma TailAgree(e: Engine, s: seq<real>, s': seq<real>, p: seq<Job>, last: Job, a: int)
    requires |s| == |s'| && JobsOk(p, |s|) && 0 <= a < |s| && last.line.Hits(a)
    requires forall b :: 0 <= b < |s| && HitsAny(p + [last], b) ==> s[b] == s'[b]
    requires forall b :: 0 <= b < |s| && HitsAny(p, b) ==> RunJobs(e, s, p)[b] == RunJobs(e, s', p)[b]
    ensures RunJobs(e, s, p)[a] == RunJobs(e, s', p)[a]
  {
    HitsAnySingle(last, a);
    HitsAnyAppend(p, [last], a);
    if !HitsAny(p, a) {
      RunJobsFrame(e, s, p, a);
      RunJobsFrame(e, s', p, a);
    }
  }

  /**
   * A pass's output on its lines depends only on its input on its lines:
   * whatever else another worker does to the array cannot change it.
   */
  lemma {:induction false} RunJobsLocal(e: Engine, s: seq<real>, s': seq<real>, js: seq<Job>)
    requires |s| == |s'| && JobsOk(js, |s|)
    requires forall a :: 0 <= a < |s| && HitsAny(js, a) ==> s[a] == s'[a]
    ensures forall a :: 0 <= a < |s| && HitsAny(js, a) ==> RunJobs(e, s, js)[a] == RunJobs(e, s', js)[a]
  {
    if |js| > 0 {
      var p, last := js[..|js| - 1], js[|js| - 1];
      assert js == p + [last];
      assert JobsOk(p, |s|) && JobOk(js[|js| - 1], |s|);
      forall a | 0 <= a < |s| && HitsAny(p, a) ensures s[a] == s'[a] {
        HitsAnyAppend(p, [last], a);
      }
      RunJobsLocal(e, s, s', p);
      var t, t' := RunJobs(e, s, p), RunJobs(e, s', p);
      forall k | 0 <= k < last.line.n
        ensures t[last.line.Re(k)] == t'[last.line.Re(k)] && t[last.line.Im(k)] == t'[last.line.Im(k)]
      {
        HitsLine(last.line, k);
        TailAgree(e, s, s', p, last, last.line.Re(k));
        TailAgree(e, s, s', p, last, last.line.Im(k));
      }
      forall a | 0 <= a < |s| && HitsAny(js, a)
        ensures RunJobs(e, s, js)[a] == RunJobs(e, s', js)[a]
      {
        HitsAnyAppend(p, [last], a);
        if last.line.Hits(a) {
          var k :| 0 <= k < last.line.n && (a == last.line.Re(k) || a == last.line.Im(k));
          RunJobLocal(e, t, t', last, k);
        } else {
          HitsAnySingle(last, a);
          RunJobFrame(e, t, last, a);
          RunJobFrame(e, t', last, a);
        }
      }
    }
  }

  /** No address belongs to both passes. */
  ghost predicate Disjoint(a: seq<Job>, b: seq<Job>)
  {
    forall j :: !(HitsAny(a, j) && HitsAny(b, j))
  }

  /**
   * Two passes over disjoint addresses may run in either order with the same
   * result, even with different engines, which is what lets workers run them
   * at the same time.
   */
  lemma RunJobsCommute(e1: Engine, e2: Engine, s: seq<real>, a: seq<Job>, b: seq<Job>)
    requires JobsOk(a, |s|) && JobsOk(b, |s|) && Disjoint(a, b)
    ensures RunJobs(e2, RunJobs(e1, s, a), b) == RunJobs(e1, RunJobs(e2, s, b), a)
  {
    var sa, sb := RunJobs(e1, s, a), RunJobs(e2, s, b);
    var ab, ba := RunJobs(e2, sa, b), RunJobs(e1, sb, a);
    forall j | 0 <= j < |s| && HitsAny(a, j) ensures sb[j] == s[j] {
      RunJobsFrame(e2, s, b, j);
    }
    RunJobsLocal(e1, s, sb, a);
    forall j | 0 <= j < |s| && HitsAny(b, j) ensures sa[j] == s[j] {
      RunJobsFrame(e1, s, a, j);
    }
    RunJobsLocal(e2, s, sa, b);
    forall j | 0 <= j < |s| ensures ab[j] == ba[j] {
      if HitsAny(a, j) {
        RunJobsFrame(e2, sa, b, j);
      } else if HitsAny(b, j) {
        RunJobsFrame(e1, sb, a, j);
      } else {
        RunJobsFrame(e2, sa, b, j);
        RunJobsFrame(e1, sb, a, j);
        RunJobsFrame(e1, s, a, j);
        RunJobsFrame(e2, s, b, j);
      }
    }
  }

  /** Disjoint passes run one after the other, in either order, give the combined pass. */
  lemma RunDisjointPasses(e: Engine, s: seq<real>, a: seq<Job>, b: seq<Job>)
    requires JobsOk(a, |s|) && JobsOk(b, |s|) && Disjoint(a, b)
    ensures JobsOk(a + b, |s|)
    ensures RunJobs(e, RunJobs(e, s, a), b) == RunJobs(e, s, a + b)
    ensures RunJobs(e, RunJobs(e, s, b), a) == RunJobs(e, s, a + b)
  {
    forall i | 0 <= i < |a + b| ensures JobOk((a + b)[i], |s|) {
      if i < |a| {
        assert (a + b)[i] == a[i];
      } else {
        assert (a + b)[i] == b[i - |a|];
      }
    }
    RunJobsAppend(e, s, a, b);
    RunJobsCommute(e, e, s, a, b);
  }

  /** With identity 1-D transforms, a pass of forward and inverse jobs changes nothing. */
  lemma {:induction false} RunJobsIdentity(e: Engine, s: seq<real>, js: seq<Job>)
    requires JobsOk(js, |s|)
    requires IsIdentity(e.fwd) && IsIdentity(e.inv)
    requires forall i :: 0 <= i < |js| ==> !js[i].kind.Convolve?
    ensures RunJobs(e, s, js) == s
  {
    if |js| > 0 {
      var p, last := js[..|js| - 1], js[|js| - 1];
      assert js == p + [last];
      RunJobsSnoc(e, s, p, last);
      RunJobsIdentity(e, s, p);
      TransformIdentity(e, last.kind, Gather(s, last.line));
      ScatterGather(s, last.line, last.line.n);
    }
  }

  /** Identity 1-D transforms give back the samples they read. */
  lemma TransformIdentity(e: Engine, kind: Kind, v: seq<Cx>)
    requires IsIdentity(e.fwd) && IsIdentity(e.inv) && !kind.Convolve?
    ensures Transform(e, kind, v) == v
  {
    var w := Transform(e, kind, v);
    assert forall k :: 0 <= k < |v| ==> w[k] == v[k];
  }
}
