/** How a campaign divides its CPUs between pipelines, and the CPU window of each. */
module CpuBudget {

  /** The campaign arguments that the start-up code adjusts. */
  class Args {
    var ncpu: nat
    var workers: nat
    var threads: nat
    var pipes: nat

    constructor (ncpu: nat, workers: nat, threads: nat)
      ensures this.ncpu == ncpu && this.workers == workers && this.threads == threads
    {
      this.ncpu, this.workers, this.threads, this.pipes := ncpu, workers, threads, 0;
    }

    /** Fixes the numbers of pipelines, workers and threads for the harnesses found. */
    method Budget(harnesses: nat)
      requires ncpu >= 1 && workers >= 1 && harnesses >= 1
      modifies `workers, `threads, `pipes
      ensures Budgeted(ncpu, old(workers), harnesses, workers, threads, pipes)
    {
      hide Fits, SparesTwo, MostPipes, MorePipesThan, MostThreads, FloorDiv;
      if ncpu < workers {
        pipes := 1;
        workers := ncpu;
        threads := 2 * ncpu;
        OnePipeFits(ncpu);
      } else {
        var whole := FloorDiv(ncpu - 2, workers);
        pipes := if whole < 1 then 1 else whole;
        threads := 2 * workers;
        WholePipesFit(ncpu, workers, harnesses, whole, pipes);
        if pipes > harnesses {
          FewerPipesFit(ncpu, workers, harnesses, whole, FloorDiv(ncpu, harnesses));
        }
      }
      if pipes > harnesses {
        pipes := harnesses;
        threads := 2 * FloorDiv(ncpu, pipes);
      }
    }
  }

  /** What the start-up code settles on when it is asked for `asked` workers. */
  ghost predicate Budgeted(ncpu: nat, asked: nat, harnesses: nat, workers: nat, threads: nat, pipes: nat) {
    && workers == (if ncpu < asked then ncpu else asked)
    && Fits(ncpu, workers, threads, pipes)
    && pipes <= harnesses
    && SparesTwo(ncpu, workers, pipes)
    && (ncpu >= asked ==> MostPipes(ncpu, workers, harnesses, pipes))
    && if ncpu >= asked && MorePipesThan(ncpu, workers, harnesses)
       then pipes == harnesses && MostThreads(ncpu, threads, pipes)
       else threads == 2 * workers
  }

  /** The workers of all pipelines fit the CPUs, and the threads twice the CPUs. */
  ghost predicate Fits(ncpu: nat, workers: nat, threads: nat, pipes: nat) {
    && pipes >= 1
    && pipes * workers <= ncpu
    && threads >= 2 * workers
    && pipes * threads <= 2 * ncpu
  }

  /** More than one pipeline leaves two CPUs without workers. */
  ghost predicate SparesTwo(ncpu: nat, workers: nat, pipes: nat) {
    pipes > 1 ==> pipes * workers <= ncpu - 2
  }

  /** No further pipeline would fit beside the two spare CPUs, or be of use. */
  ghost predicate MostPipes(ncpu: nat, workers: nat, harnesses: nat, pipes: nat) {
    pipes == harnesses || (pipes + 1) * workers > ncpu - 2
  }

  /** More pipelines than harnesses would fit beside the two spare CPUs. */
  ghost predicate MorePipesThan(ncpu: nat, workers: nat, harnesses: nat) {
    (harnesses + 1) * workers <= ncpu - 2
  }

  /** The threads are scaled up as far as they go, two at a time. */
  ghost predicate MostThreads(ncpu: nat, threads: nat, pipes: nat) {
    threads % 2 == 0 && pipes * (threads + 2) > 2 * ncpu
  }

  /** Division by a positive number, rounded down. */
  function FloorDiv(n: int, d: nat): (q: int)
    requires d >= 1
    ensures n >= 0 ==> q >= 0
  {
    n / d
  }

  lemma FloorBounds(n: int, d: nat)
    requires d >= 1
    ensures FloorDiv(n, d) * d <= n < (FloorDiv(n, d) + 1) * d
  {
    assert n == d * (n / d) + n % d;
  }

  lemma FactorLess(a: int, b: int, d: nat)
    requires d >= 1 && a * d < b * d
    ensures a < b
  {
    assert (a - b) * d == a * d - b * d;
  }

  lemma ProductsOrdered(a: nat, b: nat, d: nat)
    requires a <= b
    ensures a * d <= b * d
  {
  }

  lemma OnePipeFits(ncpu: nat)
    ensures Fits(ncpu, ncpu, 2 * ncpu, 1) && SparesTwo(ncpu, ncpu, 1)
  {
  }

  lemma PipesFit(ncpu: nat, workers: nat, pipes: nat)
    requires pipes >= 1 && pipes * workers <= ncpu
    ensures Fits(ncpu, workers, 2 * workers, pipes)
  {
    assert pipes * (2 * workers) == 2 * (pipes * workers);
  }

  /** As many pipelines as fit beside the two spare CPUs, but at least one. */
  lemma WholePipesFit(ncpu: nat, workers: nat, harnesses: nat, whole: int, pipes: nat)
    requires 1 <= workers <= ncpu && harnesses >= 1
    requires whole == FloorDiv(ncpu - 2, workers) && pipes == if whole < 1 then 1 else whole
    ensures Fits(ncpu, workers, 2 * workers, pipes) && SparesTwo(ncpu, workers, pipes)
    ensures MostPipes(ncpu, workers, harnesses, pipes)
    ensures MorePipesThan(ncpu, workers, harnesses) <==> pipes > harnesses
  {
    FloorBounds(ncpu - 2, workers);
    if whole < 1 {
      ProductsOrdered(1, 2, workers);
      ProductsOrdered(2, harnesses + 1, workers);
      FewerThanOne(ncpu, workers, whole);
    } else {
      PipesFit(ncpu, workers, whole);
      if whole > harnesses {
        ProductsOrdered(harnesses + 1, whole, workers);
      } else {
        ProductsOrdered(whole + 1, harnesses + 1, workers);
      }
    }
  }

  lemma FewerThanOne(ncpu: nat, workers: nat, whole: int)
    requires 1 <= workers <= ncpu && whole < 1 && ncpu - 2 < (whole + 1) * workers
    ensures ncpu - 2 < workers && Fits(ncpu, workers, 2 * workers, 1)
  {
    if whole < 0 {
      ProductsOrdered(0, -whole - 1, workers);
      assert (whole + 1) * workers == -((-whole - 1) * workers);
    }
  }

  lemma WorkersWithinShare(ncpu: nat, workers: nat, harnesses: nat, share: nat)
    requires harnesses >= 1 && share == FloorDiv(ncpu, harnesses)
    requires harnesses * workers <= ncpu
    ensures workers <= share && share * harnesses <= ncpu < (share + 1) * harnesses
  {
    FloorBounds(ncpu, harnesses);
    assert harnesses * workers == workers * harnesses;
    FactorLess(workers, share + 1, harnesses);
  }

  /** Only as many pipelines as harnesses, with the spare CPUs shared out as threads. */
  lemma FewerPipesFit(ncpu: nat, workers: nat, harnesses: nat, whole: int, share: nat)
    requires workers >= 1 && 1 <= harnesses < whole
    requires whole == FloorDiv(ncpu - 2, workers) && share == FloorDiv(ncpu, harnesses)
    ensures Fits(ncpu, workers, 2 * share, harnesses) && MostThreads(ncpu, 2 * share, harnesses)
    ensures SparesTwo(ncpu, workers, harnesses) && MostPipes(ncpu, workers, harnesses, harnesses)
  {
    FloorBounds(ncpu - 2, workers);
    ProductsOrdered(harnesses, whole, workers);
    WorkersWithinShare(ncpu, workers, harnesses, share);
    SharedThreads(harnesses, share);
  }

  lemma SharedThreads(harnesses: nat, share: nat)
    ensures harnesses * (2 * share) == 2 * (share * harnesses)
    ensures harnesses * (2 * share + 2) == 2 * ((share + 1) * harnesses)
  {
  }

  // The budget is fixed by what it promises.

  lemma SamePipes(ncpu: nat, workers: nat, harnesses: nat, p: nat, q: nat)
    requires workers >= 1 && 1 <= p <= harnesses && 1 <= q <= harnesses
    requires SparesTwo(ncpu, workers, p) && MostPipes(ncpu, workers, harnesses, p)
    requires SparesTwo(ncpu, workers, q) && MostPipes(ncpu, workers, harnesses, q)
    ensures p == q
  {
    if p < q {
      ProductsOrdered(p + 1, q, workers);
    } else if q < p {
      ProductsOrdered(q + 1, p, workers);
    }
  }

  lemma ThreadsAtMost(ncpu: nat, pipes: nat, most: nat, threads: nat)
    requires pipes >= 1 && MostThreads(ncpu, most, pipes)
    requires pipes * threads <= 2 * ncpu && threads % 2 == 0
    ensures threads <= most
  {
    assert threads * pipes == pipes * threads && (most + 2) * pipes == pipes * (most + 2);
    FactorLess(threads, most + 2, pipes);
  }

  lemma OnlyOnePipeFits(ncpu: nat, threads: nat, pipes: nat)
    requires ncpu >= 1 && Fits(ncpu, ncpu, threads, pipes)
    ensures pipes == 1
  {
    if pipes > 1 {
      ProductsOrdered(2, pipes, ncpu);
    }
  }

  /** No other numbers of workers, threads and pipelines keep these promises. */
  lemma BudgetIsUnique(
    ncpu: nat, asked: nat, harnesses: nat, workers: nat, threads: nat, pipes: nat, workers': nat, threads': nat, pipes': nat)
    requires ncpu >= 1 && asked >= 1 && harnesses >= 1
    requires Budgeted(ncpu, asked, harnesses, workers, threads, pipes)
    requires Budgeted(ncpu, asked, harnesses, workers', threads', pipes')
    ensures workers == workers' && threads == threads' && pipes == pipes'
  {
    hide SparesTwo, MostPipes, MorePipesThan;
    if ncpu < asked {
      OnlyOnePipeFits(ncpu, threads, pipes);
      OnlyOnePipeFits(ncpu, threads', pipes');
    } else {
      SamePipes(ncpu, workers, harnesses, pipes, pipes');
      if MorePipesThan(ncpu, workers, harnesses) {
        ThreadsAtMost(ncpu, pipes, threads, threads');
        ThreadsAtMost(ncpu, pipes, threads', threads);
      }
    }
  }

  // ---------------------------------------------------------------------
  // CPU windows
  // ---------------------------------------------------------------------

  /** The CPUs of a pipeline: `workers` of them from the pipeline's offset. */
  ghost predicate InWindow(workers: nat, pipe: nat, cpu: nat) {
    workers * pipe <= cpu < workers * pipe + workers
  }

  lemma WindowAbove(workers: nat, p: nat, q: nat)
    requires p < q
    ensures workers * p + workers <= workers * q
  {
    assert workers * q == workers * (p + 1) + workers * (q - p - 1);
    assert workers * (p + 1) == workers * p + workers;
  }

  lemma WindowsDisjoint(workers: nat, p: nat, q: nat, cpu: nat)
    requires p != q
    ensures !(InWindow(workers, p, cpu) && InWindow(workers, q, cpu))
  {
    if p < q {
      WindowAbove(workers, p, q);
    } else {
      WindowAbove(workers, q, p);
    }
  }

  lemma WindowInside(ncpu: nat, workers: nat, threads: nat, pipes: nat, pipe: nat, cpu: nat)
    requires Fits(ncpu, workers, threads, pipes) && pipe < pipes
    requires InWindow(workers, pipe, cpu)
    ensures cpu < ncpu
  {
    WindowAbove(workers, pipe, pipes);
  }
}
