/** Parsing of the arguments of an internal function against a type specification. */
module VaArgs {

  predicate IsType(c: char) { c in "ldsbraoOzZChfAHp" }
  predicate IsVar(c: char) { c == '*' || c == '+' }
  predicate IsMod(c: char) { c == '/' || c == '!' }
  predicate Allowed(c: char) { IsType(c) || IsVar(c) || IsMod(c) || c == '|' }

  /** The type letters of a specification, in order. */
  function Letters(s: string): string
  {
    if s == "" then "" else (if IsType(s[0]) then [s[0]] else "") + Letters(s[1..])
  }

  function Vars(s: string): nat
  {
    if s == "" then 0 else (if IsVar(s[0]) then 1 else 0) + Vars(s[1..])
  }

  /** How many type letters stand before the varargs letter, if there is one. */
  function Lead(s: string): nat
  {
    if s == "" || IsVar(s[0]) then 0 else (if IsType(s[0]) then 1 else 0) + Lead(s[1..])
  }

  /** Whether the first varargs letter asks for at least one argument. */
  predicate Plus(s: string)
  {
    s != "" && (if IsVar(s[0]) then s[0] == '+' else Plus(s[1..]))
  }

  lemma {:induction false} LeadBound(s: string)
    ensures Lead(s) <= |Letters(s)| && (Vars(s) == 0 ==> Lead(s) == |Letters(s)| && !Plus(s))
  {
    if s != "" { LeadBound(s[1..]); }
  }

  /** What is filled in: argument number `arg` for a type letter, or a run of varargs. */
  datatype Event = Fixed(c: char, arg: nat) | Run(first: nat, count: nat)

  /** Letters number `from` up to `to`, for the arguments of the same number plus `shift`. */
  function Slots(letters: string, from: nat, to: nat, shift: nat): seq<Event>
    requires from <= to <= |letters|
  {
    seq(to - from, k requires 0 <= k < to - from => Fixed(letters[from + k], from + k + shift))
  }

  lemma SlotsNext(letters: string, from: nat, to: nat, shift: nat)
    requires from <= to < |letters|
    ensures Slots(letters, from, to + 1, shift) == Slots(letters, from, to, shift) + [Fixed(letters[to], to + shift)]
  {
  }

  /** How many arguments go into the run of varargs: those beyond one for each letter. */
  function RunOf(spec: string, n: nat): nat { if n > |Letters(spec)| then n - |Letters(spec)| else 0 }

  /** Leading slots, one run of varargs, trailing slots: `n` arguments, each once and in order. The run
      is recorded, even if empty, as soon as an argument is left when the walk comes to it. With optional
      letters there may be fewer arguments than letters, and the last letters are left out. */
  function Layout(spec: string, n: nat): seq<Event>
  {
    LeadBound(spec);
    var letters, l, run := Letters(spec), Lead(spec), RunOf(spec, n);
    if n <= l then Slots(letters, 0, n, 0)
    else Slots(letters, 0, l, 0) + [Run(l, run)] + Slots(letters, l, n - run, run)
  }

  // ---------- what a layout consumes ----------

  function Range(a: nat, b: nat): seq<nat>
    requires a <= b
  {
    seq(b - a, k requires 0 <= k < b - a => a + k)
  }

  lemma RangeJoin(a: nat, b: nat, c: nat)
    requires a <= b <= c
    ensures Range(a, b) + Range(b, c) == Range(a, c)
  {
  }

  lemma RangeOne(a: nat)
    ensures Range(a, a + 1) == [a] && Range(a, a) == []
  {
  }

  function ArgsOf(e: Event): seq<nat>
  {
    match e
    case Fixed(_, arg) => Range(arg, arg + 1)
    case Run(first, count) => Range(first, first + count)
  }

  /** The argument numbers that the events consume, in order. */
  function Args(log: seq<Event>): seq<nat>
  {
    if log == [] then [] else Args(log[..|log| - 1]) + ArgsOf(log[|log| - 1])
  }

  lemma ArgsSnoc(log: seq<Event>, e: Event)
    ensures Args(log + [e]) == Args(log) + ArgsOf(e)
  {
    assert (log + [e])[..|log|] == log;
  }

  lemma {:induction false} ArgsSlots(log: seq<Event>, letters: string, from: nat, end: nat, shift: nat)
    requires from <= end <= |letters|
    ensures Args(log + Slots(letters, from, end, shift)) == Args(log) + Range(from + shift, end + shift)
    decreases end
  {
    hide Range, Slots, Args;
    if from == end {
      NoSlots(letters, from, shift);
      RangeOne(from + shift);
      assert log + [] == log;
    } else {
      var e := Fixed(letters[end - 1], end - 1 + shift);
      var before := Slots(letters, from, end - 1, shift);
      ArgsSlots(log, letters, from, end - 1, shift);
      SlotsNext(letters, from, end - 1, shift);
      assert log + (before + [e]) == (log + before) + [e];
      ArgsSnoc(log + before, e);
      RangeJoin(from + shift, end - 1 + shift, end + shift);
    }
  }

  lemma NoSlots(letters: string, l: nat, shift: nat)
    requires l <= |letters|
    ensures Slots(letters, l, l, shift) == []
  {
  }

  /** Every argument is consumed exactly once, in order. */
  lemma LayoutCoversAll(spec: string, n: nat)
    ensures Args(Layout(spec, n)) == Range(0, n)
  {
    hide Range, Slots, Args, Letters, Lead, Vars, Plus;
    LeadBound(spec);
    var letters, l := Letters(spec), Lead(spec);
    if n <= l { LeadArgs(letters, n); } else { RunArgs(letters, l, n, RunOf(spec, n)); }
  }

  lemma LeadArgs(letters: string, l: nat)
    requires l <= |letters|
    ensures Args(Slots(letters, 0, l, 0)) == Range(0, l)
  {
    hide Range, Slots, Args;
    ArgsSlots([], letters, 0, l, 0);
    NoArgs();
    assert [] + Slots(letters, 0, l, 0) == Slots(letters, 0, l, 0);
  }

  lemma RunArgs(letters: string, l: nat, n: nat, run: nat)
    requires l <= n - run <= |letters|
    ensures Args(Slots(letters, 0, l, 0) + [Run(l, run)] + Slots(letters, l, n - run, run)) == Range(0, n)
  {
    hide Range, Slots, Args;
    var lead := Slots(letters, 0, l, 0);
    LeadArgs(letters, l);
    ArgsSnoc(lead, Run(l, run));
    RangeJoin(0, l, l + run);
    ArgsSlots(lead + [Run(l, run)], letters, l, n - run, run);
    RangeJoin(0, l + run, n);
  }

  /** The letters that the events fill, in order. */
  function Filled(log: seq<Event>): string
  {
    if log == [] then "" else Filled(log[..|log| - 1]) + (if log[|log| - 1].Fixed? then [log[|log| - 1].c] else "")
  }

  lemma FilledSnoc(log: seq<Event>, e: Event)
    ensures Filled(log + [e]) == Filled(log) + (if e.Fixed? then [e.c] else "")
  {
    assert (log + [e])[..|log|] == log;
  }

  lemma {:induction false} FilledSlots(log: seq<Event>, letters: string, from: nat, end: nat, shift: nat)
    requires from <= end <= |letters|
    ensures Filled(log + Slots(letters, from, end, shift)) == Filled(log) + letters[from..end]
    decreases end
  {
    hide Slots, Filled;
    if from == end {
      NoSlots(letters, from, shift);
      assert log + [] == log;
    } else {
      var e := Fixed(letters[end - 1], end - 1 + shift);
      var before := Slots(letters, from, end - 1, shift);
      FilledSlots(log, letters, from, end - 1, shift);
      SlotsNext(letters, from, end - 1, shift);
      assert log + (before + [e]) == (log + before) + [e];
      FilledSnoc(log + before, e);
      assert letters[from..end] == letters[from..end - 1] + [letters[end - 1]];
    }
  }

  /** The letters filled are a prefix of the letters of the specification, as long as the arguments
      reach, in order. */
  lemma LayoutFillsPrefix(spec: string, n: nat)
    ensures Filled(Layout(spec, n)) == Letters(spec)[..n - RunOf(spec, n)]
  {
    hide Slots, Filled, Letters, Lead, Vars, Plus;
    LeadBound(spec);
    var letters, l, run := Letters(spec), Lead(spec), RunOf(spec, n);
    var lead := Slots(letters, 0, if n <= l then n else l, 0);
    FilledSlots([], letters, 0, if n <= l then n else l, 0);
    NoneFilled();
    assert [] + lead == lead;
    if n > l {
      FilledSnoc(lead, Run(l, run));
      FilledSlots(lead + [Run(l, run)], letters, l, n - run, run);
      assert letters[0..l] + letters[l..n - run] == letters[..n - run];
    }
  }

  lemma NoneFilled()
    ensures Filled([]) == ""
  {
  }

  lemma NoArgs()
    ensures Args([]) == []
  {
  }

  // ---------- counting ----------

  datatype Counts = Bad | Counts(min: int, max: int, post: nat, varargs: bool)

  /** How many arguments a part of a specification asks for. */
  function Weight(s: string): nat
  {
    if s == "" then 0 else Weight(s[..|s| - 1]) + (if IsType(s[|s| - 1]) || s[|s| - 1] == '+' then 1 else 0)
  }

  /** The position of the last bar, or -1. */
  function LastBar(s: string): (k: int)
    ensures -1 <= k < |s|
  {
    if s == "" then -1 else if s[|s| - 1] == '|' then |s| - 1 else LastBar(s[..|s| - 1])
  }

  /** The least number of arguments: what stands before the last bar, or everything. */
  function Minimum(spec: string): nat { Weight(if LastBar(spec) < 0 then spec else spec[..LastBar(spec)]) }

  lemma WeightNext(spec: string, k: nat)
    requires k < |spec|
    ensures Weight(spec[..k + 1]) == Weight(spec[..k]) + (if IsType(spec[k]) || spec[k] == '+' then 1 else 0)
    ensures LastBar(spec[..k + 1]) == if spec[k] == '|' then k else LastBar(spec[..k])
  {
    assert spec[..k + 1][..k] == spec[..k];
  }

  /** The first loop over the specification. */
  method Count(spec: string) returns (r: Counts)
    ensures r == Bad <==> Vars(spec) > 1 || exists k :: 0 <= k < |spec| && !Allowed(spec[k])
    ensures r != Bad ==>
              && r.min == Minimum(spec) && r.varargs == (Vars(spec) == 1)
              && (if r.varargs then r.max == -1 && r.post == |Letters(spec)| - Lead(spec) else r.max == |Letters(spec)| && r.post == 0)
    ensures r != Bad && '|' !in spec ==> r.min == |Letters(spec)| + (if Plus(spec) then 1 else 0)
  {
    hide Weight, LastBar, Letters, Lead, Vars, Plus, Counting;
    var k, min, max, post, have := 0, -1, 0, 0, false;
    assert spec[..0] == "";
    NoWeight();
    CountingStart(spec);
    while k < |spec|
      invariant 0 <= k <= |spec| && 0 <= post <= max && (min < 0 || '|' in spec)
      invariant (forall q :: 0 <= q < k ==> Allowed(spec[q]))
      invariant Counting(spec, k, max, post, have) && max == Weight(spec[..k]) && Bar(spec, k, min)
    {
      var c := spec[k];
      WeightNext(spec, k);
      if Allowed(c) && !(have && IsVar(c)) { CountingNext(spec, k, max, post, have); }
      if IsType(c) {
        max := max + 1;
      } else if c == '|' {
        min := max;
      } else if IsMod(c) {
      } else if IsVar(c) {
        if have {
          VarsLeft(spec, k, max, post);
          return Bad;
        }
        have := true;
        if c == '+' {
          max := max + 1;
        }
        post := max;
      } else {
        assert !Allowed(spec[k]);
        return Bad;
      }
      k := k + 1;
    }
    assert spec[..k] == spec;
    CountingEnd(spec, max, post, have);
    if min < 0 {
      min := max;
    }
    if have {
      post := max - post;
      max := -1;
    }
    r := Counts(min, max, post, have);
  }

  /** `min` is what the part before the last bar of the first `k` characters asks for, or -1. */
  ghost predicate Bar(spec: string, k: nat, min: int)
    requires k <= |spec|
  {
    var b := LastBar(spec[..k]);
    if b < 0 then min == -1 else min == Weight(spec[..b])
  }

  lemma NoWeight()
    ensures Weight("") == 0 && LastBar("") == -1
  {
  }

  /** What the counters say of the first `k` characters; `post` is the count at the varargs letter. */
  ghost predicate Counting(spec: string, k: nat, max: int, post: int, have: bool)
    requires k <= |spec|
  {
    && (if have then 1 else 0) + Vars(spec[k..]) == Vars(spec)
    && (!have ==> max + |Letters(spec[k..])| == |Letters(spec)| && max + Lead(spec[k..]) == Lead(spec))
    && (!have ==> Plus(spec[k..]) == Plus(spec) && post == 0)
    && (have ==> post == Lead(spec) + (if Plus(spec) then 1 else 0))
    && (have ==> max + |Letters(spec[k..])| == |Letters(spec)| + (if Plus(spec) then 1 else 0))
  }

  lemma CountingStart(spec: string)
    ensures Counting(spec, 0, 0, 0, false)
  {
    assert spec[0..] == spec;
  }

  /** One allowed character further, unless it is a second varargs letter. */
  lemma CountingNext(spec: string, k: nat, max: int, post: int, have: bool)
    requires k < |spec| && Counting(spec, k, max, post, have) && Allowed(spec[k]) && !(have && IsVar(spec[k]))
    ensures var c := spec[k];
            var max' := if IsType(c) || c == '+' then max + 1 else max;
            Counting(spec, k + 1, max', if IsVar(c) then max' else post, have || IsVar(c))
  {
    hide Letters, Lead, Vars, Plus;
    FrontChar(spec, k);
  }

  /** The counts of the rest of a specification, character by character. */
  lemma FrontChar(spec: string, k: nat)
    requires k < |spec|
    ensures var c, s, t := spec[k], spec[k..], spec[k + 1..];
            && |Letters(s)| == (if IsType(c) then 1 else 0) + |Letters(t)| && Vars(s) == (if IsVar(c) then 1 else 0) + Vars(t)
            && Lead(s) == (if IsVar(c) then 0 else (if IsType(c) then 1 else 0) + Lead(t))
            && Plus(s) == (if IsVar(c) then c == '+' else Plus(t))
  {
    assert spec[k..][0] == spec[k] && spec[k..][1..] == spec[k + 1..];
  }

  lemma CountingEnd(spec: string, max: int, post: int, have: bool)
    requires Counting(spec, |spec|, max, post, have)
    ensures Vars(spec) == (if have then 1 else 0) && max == |Letters(spec)| + (if Plus(spec) then 1 else 0)
    ensures if have then post == Lead(spec) + (if Plus(spec) then 1 else 0) && Lead(spec) <= |Letters(spec)| else !Plus(spec) && post == 0
  {
    assert spec[|spec|..] == "";
    LeadBound(spec);
  }

  lemma VarsLeft(spec: string, k: nat, max: int, post: int)
    requires k < |spec| && IsVar(spec[k]) && Counting(spec, k, max, post, true)
    ensures Vars(spec) > 1
  {
    assert spec[k..][0] == spec[k];
  }

  // ---------- parsing ----------

  /** zend_parse_arg on the letter at position `p`, with the modifiers behind it; whether the argument
      fits the letter is a parameter. */
  method ParseArg(spec: string, p: nat, arg: nat, accept: (char, nat) -> bool) returns (ok: bool, q: nat)
    requires p <= |spec|
    ensures ok <==> p < |spec| && IsType(spec[p]) && accept(spec[p], arg)
    ensures ok ==> p < q <= |spec| && (q == |spec| || !IsMod(spec[q])) && forall k :: p < k < q ==> IsMod(spec[k])
    ensures ok ==>
              && Letters(spec[p..]) == [spec[p]] + Letters(spec[q..]) && Lead(spec[p..]) == 1 + Lead(spec[q..])
              && Vars(spec[p..]) == Vars(spec[q..])
  {
    hide Letters, Lead, Vars;
    q := p;
    if p == |spec| || !IsType(spec[p]) || !accept(spec[p], arg) {
      return false, q;
    }
    ok, q := true, p + 1;
    LetterFront(spec, p);
    while q < |spec| && IsMod(spec[q])
      invariant p < q <= |spec| && Letters(spec[p + 1..]) == Letters(spec[q..])
      invariant forall k :: p < k < q ==> IsMod(spec[k])
      invariant Lead(spec[p + 1..]) == Lead(spec[q..]) && Vars(spec[p + 1..]) == Vars(spec[q..])
    {
      ModSkipped(spec, q);
      q := q + 1;
    }
  }

  lemma ModSkipped(spec: string, q: nat)
    requires q < |spec| && IsMod(spec[q])
    ensures Letters(spec[q..]) == Letters(spec[q + 1..]) && Lead(spec[q..]) == Lead(spec[q + 1..])
    ensures Vars(spec[q..]) == Vars(spec[q + 1..])
  {
    assert spec[q..][0] == spec[q] && spec[q..][1..] == spec[q + 1..];
  }

  lemma LetterFront(spec: string, p: nat)
    requires p < |spec| && IsType(spec[p])
    ensures Letters(spec[p..]) == [spec[p]] + Letters(spec[p + 1..]) && Lead(spec[p..]) == 1 + Lead(spec[p + 1..])
    ensures Vars(spec[p..]) == Vars(spec[p + 1..])
  {
    assert spec[p..][0] == spec[p] && spec[p..][1..] == spec[p + 1..];
  }

  /** The arguments so far, before the varargs letter. */
  ghost predicate InLead(spec: string, n: nat, p: nat, i: nat, left: nat, log: seq<Event>)
    requires p <= |spec|
  {
    var letters, l := Letters(spec), Lead(spec);
    && i <= l <= |letters| && i + left == n && Letters(spec[p..]) == letters[i..] && Lead(spec[p..]) == l - i
    && Vars(spec[p..]) == Vars(spec)
    && log == Slots(letters, 0, i, 0)
  }

  /** The arguments so far, behind it. */
  ghost predicate InTail(spec: string, n: nat, p: nat, i: nat, left: nat, log: seq<Event>)
    requires p <= |spec|
  {
    var letters, l, run := Letters(spec), Lead(spec), RunOf(spec, n);
    && l < n && i + left == n && l <= i - run <= |letters| && Letters(spec[p..]) == letters[i - run..] && Vars(spec[p..]) == 0
    && log == Slots(letters, 0, l, 0) + [Run(l, run)] + Slots(letters, l, i - run, run)
  }

  ghost predicate Progress(spec: string, n: nat, p: nat, i: nat, left: nat, passed: bool, log: seq<Event>)
    requires p <= |spec|
  {
    if passed then InTail(spec, n, p, i, left, log) else InLead(spec, n, p, i, left, log)
  }

  lemma StartProgress(spec: string, n: nat)
    ensures Progress(spec, n, 0, 0, n, false, [])
  {
    assert spec[0..] == spec;
    LeadBound(spec);
  }

  /** One letter further. */
  lemma LetterTaken(spec: string, n: nat, p: nat, q: nat, i: nat, left: nat, passed: bool, log: seq<Event>)
    requires p < q <= |spec| && left > 0 && Progress(spec, n, p, i, left, passed, log) && !IsVar(spec[p])
    requires Letters(spec[p..]) == [spec[p]] + Letters(spec[q..]) && Lead(spec[p..]) == 1 + Lead(spec[q..])
    requires Vars(spec[p..]) == Vars(spec[q..])
    ensures Progress(spec, n, q, i + 1, left - 1, passed, log + [Fixed(spec[p], i)]) && (!passed ==> i < Lead(spec))
  {
    hide InLead, InTail, Letters, Lead, Vars;
    if passed { LetterInTail(spec, n, p, q, i, left, log); } else { LetterInLead(spec, n, p, q, i, left, log); }
  }

  lemma LetterInLead(spec: string, n: nat, p: nat, q: nat, i: nat, left: nat, log: seq<Event>)
    requires p < q <= |spec| && left > 0 && InLead(spec, n, p, i, left, log)
    requires Letters(spec[p..]) == [spec[p]] + Letters(spec[q..]) && Lead(spec[p..]) == 1 + Lead(spec[q..])
    requires Vars(spec[p..]) == Vars(spec[q..])
    ensures InLead(spec, n, q, i + 1, left - 1, log + [Fixed(spec[p], i)]) && i < Lead(spec)
  {
    hide Letters, Lead, Vars, Slots;
    TailFront(Letters(spec), i, spec[p], Letters(spec[q..]));
    SlotsNext(Letters(spec), 0, i, 0);
  }

  lemma LetterInTail(spec: string, n: nat, p: nat, q: nat, i: nat, left: nat, log: seq<Event>)
    requires p < q <= |spec| && left > 0 && InTail(spec, n, p, i, left, log)
    requires Letters(spec[p..]) == [spec[p]] + Letters(spec[q..]) && Vars(spec[p..]) == Vars(spec[q..])
    ensures InTail(spec, n, q, i + 1, left - 1, log + [Fixed(spec[p], i)])
  {
    hide Letters, Lead, Vars, Slots;
    var letters, l, run := Letters(spec), Lead(spec), RunOf(spec, n);
    var k := i - run;
    TailFront(letters, k, spec[p], Letters(spec[q..]));
    SlotsNext(letters, l, k, run);
    Append(Slots(letters, 0, l, 0) + [Run(l, run)], Slots(letters, l, k, run), Fixed(spec[p], i));
  }

  lemma Append(a: seq<Event>, b: seq<Event>, e: Event)
    ensures a + b + [e] == a + (b + [e])
  {
  }

  lemma TailFront(letters: string, k: nat, c: char, rest: string)
    requires k <= |letters| && letters[k..] == [c] + rest
    ensures k < |letters| && letters[k] == c && letters[k + 1..] == rest
  {
    assert |letters[k..]| == 1 + |rest|;
    assert letters[k..][0] == c && letters[k..][1..] == rest;
  }

  /** The varargs letter is reached: all arguments but the trailing ones go into the run. */
  lemma VarTaken(spec: string, n: nat, p: nat, i: nat, left: nat, passed: bool, log: seq<Event>, post: nat)
    requires p < |spec| && left > 0 && Progress(spec, n, p, i, left, passed, log) && IsVar(spec[p])
    requires post == |Letters(spec)| - Lead(spec) && Vars(spec) <= 1
    ensures !passed && i == Lead(spec) && left - post == n - |Letters(spec)| && Vars(spec) == 1
    ensures var run := RunOf(spec, n);
            run <= left && Progress(spec, n, p + 1, i + run, left - run, true, log + [Run(i, run)])
  {
    hide Letters, Lead, Vars, Slots;
    VarFront(spec, p);
    NoSlots(Letters(spec), Lead(spec), RunOf(spec, n));
    assert Letters(spec)[Lead(spec)..] == Letters(spec[p + 1..]);
  }

  /** A bar is passed by. */
  lemma BarTaken(spec: string, n: nat, p: nat, i: nat, left: nat, passed: bool, log: seq<Event>)
    requires p < |spec| && spec[p] == '|' && Progress(spec, n, p, i, left, passed, log)
    ensures Progress(spec, n, p + 1, i, left, passed, log)
  {
    assert spec[p..][0] == spec[p] && spec[p..][1..] == spec[p + 1..];
  }

  lemma VarFront(spec: string, p: nat)
    requires p < |spec| && IsVar(spec[p])
    ensures Letters(spec[p..]) == Letters(spec[p + 1..]) && Lead(spec[p..]) == 0
    ensures Vars(spec[p..]) == 1 + Vars(spec[p + 1..])
  {
    assert spec[p..][0] == spec[p] && spec[p..][1..] == spec[p + 1..];
  }

  lemma AtEnd(spec: string, n: nat, p: nat, i: nat, passed: bool, log: seq<Event>)
    requires p <= |spec| && Progress(spec, n, p, i, 0, passed, log)
    ensures log == Layout(spec, n) && i == n && (!passed ==> n <= Lead(spec) <= |Letters(spec)|)
  {
    hide Letters, Lead, Vars, Slots;
  }

  // ---------- when the walk succeeds ----------

  predicate IsItem(c: char) { IsType(c) || IsVar(c) }

  /** The length of the shortest prefix with `c` type or varargs letters. */
  function EndOf(s: string, c: nat): nat
  {
    if c == 0 || s == "" then 0 else 1 + EndOf(s[1..], if IsItem(s[0]) then c - 1 else c)
  }

  /** How many of these letters the walk reads for `n` arguments. */
  function ItemsRead(spec: string, n: nat): nat
  {
    n - RunOf(spec, n) + (if Vars(spec) == 1 && n > Lead(spec) then 1 else 0)
  }

  /** A character that the walk cannot pass: a modifier without a type letter in front of it, a second bar
      in a row, or a bar behind a varargs letter that takes nothing. */
  predicate OutOfPlace(spec: string, i: nat, run: nat)
    requires i < |spec|
  {
    || (IsMod(spec[i]) && (i == 0 || spec[i - 1] == '|' || IsVar(spec[i - 1])))
    || (spec[i] == '|' && i > 0 && (spec[i - 1] == '|' || (IsVar(spec[i - 1]) && run == 0)))
  }

  /** No such character in the part of the specification that is read. */
  ghost predicate InPlace(spec: string, n: nat)
  {
    forall i :: 0 <= i < EndOf(spec, ItemsRead(spec, n)) && i < |spec| ==> !OutOfPlace(spec, i, RunOf(spec, n))
  }

  /** The argument fits every letter that is filled. */
  ghost predicate AllFit(log: seq<Event>, accept: (char, nat) -> bool)
  {
    forall k :: 0 <= k < |log| && log[k].Fixed? ==> accept(log[k].c, log[k].arg)
  }

  /** When `n` arguments can be parsed. */
  ghost predicate Parses(spec: string, n: nat, argCount: nat, accept: (char, nat) -> bool)
  {
    && Vars(spec) <= 1 && (forall k :: 0 <= k < |spec| ==> Allowed(spec[k]))
    && Minimum(spec) <= n <= argCount && (Vars(spec) == 0 ==> n <= |Letters(spec)|)
    && AllFit(Layout(spec, n), accept) && InPlace(spec, n)
  }

  /** The letters still to be read. */
  ghost function ToRead(spec: string, n: nat, i: nat, left: nat, passed: bool): int
  {
    if passed then left else ItemsRead(spec, n) - i
  }

  /** The walk has come to position `p` with `c` letters still to be read. */
  ghost predicate Ahead(spec: string, p: nat, c: int, end: nat)
    requires p <= |spec|
  {
    if c > 0 then end == p + EndOf(spec[p..], c) else end <= p
  }

  /** The walk is at the beginning, behind a type letter and all its modifiers, or behind a run of varargs. */
  predicate AtStart(spec: string, p: nat, run: nat)
    requires p <= |spec|
  {
    p > 0 ==>
      var c := spec[p - 1];
      if IsVar(c) then run > 0 else (IsType(c) || IsMod(c)) && (p == |spec| || !IsMod(spec[p]))
  }

  /** Every character passed so far is in place. */
  ghost predicate PassedWell(spec: string, n: nat, p: nat)
  {
    forall i :: 0 <= i < p && i < |spec| && i < EndOf(spec, ItemsRead(spec, n)) ==> !OutOfPlace(spec, i, RunOf(spec, n))
  }

  lemma EndNext(spec: string, p: nat, c: nat)
    requires p < |spec| && c > 0
    ensures EndOf(spec[p..], c) == 1 + EndOf(spec[p + 1..], if IsItem(spec[p]) then c - 1 else c)
  {
    assert spec[p..][0] == spec[p] && spec[p..][1..] == spec[p + 1..];
  }

  lemma AheadNext(spec: string, p: nat, c: int, end: nat)
    requires p < |spec| && c > 0 && Ahead(spec, p, c, end)
    ensures Ahead(spec, p + 1, if IsItem(spec[p]) then c - 1 else c, end) && p < end
  {
    EndNext(spec, p, c);
    NoEnd(spec[p + 1..]);
  }

  lemma NoEnd(s: string) ensures EndOf(s, 0) == 0 { }

  lemma {:induction false} AheadMods(spec: string, p: nat, q: nat, c: int, end: nat)
    requires p <= q <= |spec| && Ahead(spec, p, c, end) && forall k :: p <= k < q ==> IsMod(spec[k])
    ensures Ahead(spec, q, c, end)
    decreases q - p
  {
    if p < q && c > 0 {
      AheadNext(spec, p, c, end);
      AheadMods(spec, p + 1, q, c, end);
    }
  }

  /** A letter is still to be read as long as an argument is left. */
  lemma SomeToRead(spec: string, n: nat, p: nat, i: nat, left: nat, passed: bool, log: seq<Event>)
    requires p <= |spec| && Progress(spec, n, p, i, left, passed, log) && left > 0
    requires Vars(spec) <= 1 && (Vars(spec) == 0 ==> n <= |Letters(spec)|)
    ensures ToRead(spec, n, i, left, passed) > 0 && p < |spec|
  {
    hide Letters, Lead, Vars, Plus, Slots;
    LeadBound(spec);
    if p == |spec| {
      NothingLeft(spec);
      assert false;
    }
  }

  lemma NothingLeft(spec: string)
    ensures Letters(spec[|spec|..]) == "" && Lead(spec[|spec|..]) == 0 && Vars(spec[|spec|..]) == 0
  {
  }

  /** What has been filled so far is the beginning of the layout. */
  lemma LogPrefix(spec: string, n: nat, p: nat, i: nat, left: nat, passed: bool, log: seq<Event>)
    requires p <= |spec| && Progress(spec, n, p, i, left, passed, log) && Vars(spec) <= 1
    requires Vars(spec) == 0 ==> n <= |Letters(spec)|
    ensures log <= Layout(spec, n)
  {
    hide Letters, Lead, Vars, Plus;
    LeadBound(spec);
    if !passed && n > Lead(spec) {
      SlotsPrefix(Letters(spec), 0, i, Lead(spec), 0);
    } else if !passed {
      SlotsPrefix(Letters(spec), 0, i, n, 0);
    } else {
      var run := RunOf(spec, n);
      SlotsPrefix(Letters(spec), Lead(spec), i - run, n - run, run);
    }
  }

  lemma SlotsPrefix(letters: string, from: nat, k: nat, end: nat, shift: nat)
    requires from <= k <= end <= |letters|
    ensures Slots(letters, from, k, shift) <= Slots(letters, from, end, shift)
  {
  }

  /** The walk cannot go on: then the conditions are not met. */
  lemma Stuck(spec: string, n: nat, argCount: nat, accept: (char, nat) -> bool, p: nat, i: nat, left: nat, passed: bool,
      log: seq<Event>)
    requires p <= |spec| && Progress(spec, n, p, i, left, passed, log) && left > 0
    requires Vars(spec) <= 1 && (Vars(spec) == 0 ==> n <= |Letters(spec)|)
    requires Ahead(spec, p, ToRead(spec, n, i, left, passed), EndOf(spec, ItemsRead(spec, n)))
    requires !(p < |spec| && IsType(spec[p]) && accept(spec[p], i))
    requires p < |spec| && !IsType(spec[p]) ==> OutOfPlace(spec, p, RunOf(spec, n))
    ensures !Parses(spec, n, argCount, accept)
  {
    hide Progress, Letters, Lead, Vars, Layout, EndOf, Minimum, ItemsRead, RunOf, ToRead;
    SomeToRead(spec, n, p, i, left, passed, log);
    AheadNext(spec, p, ToRead(spec, n, i, left, passed), EndOf(spec, ItemsRead(spec, n)));
    if IsType(spec[p]) {
      LetterFront(spec, p);
      LetterTaken(spec, n, p, p + 1, i, left, passed, log);
      LogPrefix(spec, n, p + 1, i + 1, left - 1, passed, log + [Fixed(spec[p], i)]);
      Unfit(log, Layout(spec, n), spec[p], i, accept);
    }
  }

  lemma Unfit(log: seq<Event>, all: seq<Event>, c: char, arg: nat, accept: (char, nat) -> bool)
    requires log + [Fixed(c, arg)] <= all && !accept(c, arg)
    ensures !AllFit(all, accept)
  {
    assert all[|log|] == Fixed(c, arg);
  }

  /** Two bars in a row: the letter behind them is within the maximum and can never be filled. */
  lemma TwoBars(accept: (char, nat) -> bool)
    ensures Minimum("l||l") == 1 && |Letters("l||l")| == 2
    ensures !Parses("l||l", 2, 2, accept) && (Parses("l||l", 1, 1, accept) <==> accept('l', 0))
  {
    TwoBarsCounts();
    var s := "l||l";
    assert ItemsRead(s, 2) == 2 && ItemsRead(s, 1) == 1 && OutOfPlace(s, 2, 0);
    var log := Layout(s, 1);
    assert log == [Fixed('l', 0)];
    assert AllFit(log, accept) <==> accept('l', 0) by { assert log[0].c == 'l' && log[0].arg == 0; }
  }

  lemma TwoBarsCounts()
    ensures var s := "l||l";
            Letters(s) == "ll" && Vars(s) == 0 && Lead(s) == 2 && Minimum(s) == 1 && EndOf(s, 2) == 4 && EndOf(s, 1) == 1
  {
    var s := "l||l";
    assert s[1..] == "||l" && s[1..][1..] == "|l" && s[1..][1..][1..] == "l" && s[1..][1..][1..][1..] == "";
    assert LastBar(s) == 2 by { assert s[..3] == "l||"; }
    var t := s[..2];
    assert t[..1] == "l" && t[..1][..0] == "";
    assert Weight(t[..1]) == 1;
  }

  // ---------- the walk, step by step ----------

  lemma StartAhead(spec: string, n: nat)
    requires Vars(spec) <= 1 && (Vars(spec) == 0 ==> n <= |Letters(spec)|)
    ensures Ahead(spec, 0, ToRead(spec, n, 0, n, false), EndOf(spec, ItemsRead(spec, n)))
    ensures PassedWell(spec, n, 0) && AtStart(spec, 0, RunOf(spec, n))
  {
    hide Letters, Lead, Vars, EndOf;
    LeadBound(spec);
    NoEnd(spec);
    assert spec[0..] == spec;
  }

  /** A bar behind a letter or behind a run of varargs is in place. */
  lemma BarAhead(spec: string, n: nat, p: nat, c: int)
    requires p < |spec| && spec[p] == '|' && c > 0 && Ahead(spec, p, c, EndOf(spec, ItemsRead(spec, n)))
    requires PassedWell(spec, n, p) && AtStart(spec, p, RunOf(spec, n))
    ensures Ahead(spec, p + 1, c, EndOf(spec, ItemsRead(spec, n))) && PassedWell(spec, n, p + 1)
  {
    hide EndOf, ItemsRead, RunOf;
    AheadNext(spec, p, c, EndOf(spec, ItemsRead(spec, n)));
    assert !OutOfPlace(spec, p, RunOf(spec, n));
  }

  lemma VarAhead(spec: string, n: nat, p: nat, i: nat, left: nat, log: seq<Event>)
    requires p < |spec| && IsVar(spec[p]) && Vars(spec) == 1 && i == Lead(spec) < n && i + left == n
    requires Ahead(spec, p, ToRead(spec, n, i, left, false), EndOf(spec, ItemsRead(spec, n))) && PassedWell(spec, n, p)
    ensures RunOf(spec, n) <= left
    ensures Ahead(spec, p + 1, left - RunOf(spec, n), EndOf(spec, ItemsRead(spec, n))) && PassedWell(spec, n, p + 1)
  {
    hide EndOf, Letters, Lead, Vars;
    LeadBound(spec);
    AheadNext(spec, p, ToRead(spec, n, i, left, false), EndOf(spec, ItemsRead(spec, n)));
    assert !OutOfPlace(spec, p, RunOf(spec, n));
  }

  lemma LetterAhead(spec: string, n: nat, p: nat, q: nat, c: int)
    requires p < q <= |spec| && IsType(spec[p]) && c > 0 && Ahead(spec, p, c, EndOf(spec, ItemsRead(spec, n)))
    requires PassedWell(spec, n, p) && (q == |spec| || !IsMod(spec[q])) && forall k :: p < k < q ==> IsMod(spec[k])
    ensures Ahead(spec, q, c - 1, EndOf(spec, ItemsRead(spec, n))) && PassedWell(spec, n, q)
    ensures AtStart(spec, q, RunOf(spec, n))
  {
    hide EndOf, ItemsRead, RunOf, Ahead, OutOfPlace;
    AheadNext(spec, p, c, EndOf(spec, ItemsRead(spec, n)));
    AheadMods(spec, p + 1, q, c - 1, EndOf(spec, ItemsRead(spec, n)));
    forall k | p <= k < q ensures !OutOfPlace(spec, k, RunOf(spec, n)) { ModInPlace(spec, p, k, RunOf(spec, n)); }
  }

  lemma ModInPlace(spec: string, p: nat, k: nat, run: nat)
    requires p <= k < |spec| && IsType(spec[p]) && forall j :: p < j <= k ==> IsMod(spec[j])
    ensures !OutOfPlace(spec, k, run)
  {
    if k > p { assert k - 1 == p || IsMod(spec[k - 1]); }
  }

  lemma NoSecondVar(spec: string, n: nat, p: nat, i: nat, left: nat, log: seq<Event>)
    requires p <= |spec| && Progress(spec, n, p, i, left, true, log)
    ensures p < |spec| ==> !IsVar(spec[p])
  {
    hide Letters, Lead, Vars, Slots, Layout;
    if p < |spec| && IsVar(spec[p]) { VarFront(spec, p); }
  }

  /** What cannot be read as a letter is out of place: the walk came to `p` from `p0` past a bar, past an
      empty run of varargs, or past both. */
  lemma Misplaced(spec: string, p0: nat, p: nat, run: nat)
    requires p0 <= p < |spec| && AtStart(spec, p0, run) && Allowed(spec[p]) && !IsType(spec[p])
    requires !IsVar(spec[p]) && if p0 == p then spec[p] != '|' else spec[p - 1] == '|' || (IsVar(spec[p - 1]) && run == 0)
    ensures OutOfPlace(spec, p, run)
  {
  }

  lemma AllRead(spec: string, n: nat, p: nat, i: nat, passed: bool)
    requires p <= |spec| && Vars(spec) <= 1 && PassedWell(spec, n, p)
    requires (!passed ==> i == n <= Lead(spec) <= |Letters(spec)|)
    requires Ahead(spec, p, ToRead(spec, n, i, 0, passed), EndOf(spec, ItemsRead(spec, n)))
    ensures InPlace(spec, n)
  {
    hide EndOf, Letters, Lead, Vars;
  }

  /** zend_parse_va_args. The parse succeeds exactly under `Parses`; then it consumes every argument once and
      in order, as `Layout` says, with and without optional letters; a failed one leaves no varargs array
      behind. */
  method ParseVaArgs(n: nat, argCount: nat, spec: string, accept: (char, nat) -> bool)
    returns (ok: bool, log: seq<Event>, held: bool)
    ensures ok <==> Parses(spec, n, argCount, accept)
    ensures !ok ==> !held
    ensures ok ==> log == Layout(spec, n) && (held <==> n > |Letters(spec)|)
    ensures ok && '|' !in spec ==> n >= |Letters(spec)| + (if Plus(spec) then 1 else 0)
  {
    hide Letters, Lead, Vars, Progress, Layout, Minimum, Plus, EndOf, ItemsRead, OutOfPlace, Ahead, PassedWell, InPlace,
         IsType, IsMod;
    log, held := [], false;
    var counts := Count(spec);
    LeadBound(spec);
    if counts == Bad || n < counts.min || (n > counts.max && counts.max > 0) || n > argCount {
      return false, log, held;
    }
    ghost var end, run := EndOf(spec, ItemsRead(spec, n)), RunOf(spec, n);
    var i: nat, left: nat, p: nat := 0, n, 0;
    ghost var passed := false;
    StartProgress(spec, n);
    ghost var short := Vars(spec) == 0 ==> n <= |Letters(spec)|;
    if short { StartAhead(spec, n); }
    while left > 0
      invariant p <= |spec| && Progress(spec, n, p, i, left, passed, log)
      invariant (held <==> passed && n > |Letters(spec)|) && (passed ==> Vars(spec) == 1)
      invariant AllFit(log, accept)
      invariant short ==>
                Ahead(spec, p, ToRead(spec, n, i, left, passed), end) && PassedWell(spec, n, p) && AtStart(spec, p, run)
      decreases left
    {
      ghost var p0 := p;
      if p < |spec| && spec[p] == '|' {
        BarTaken(spec, n, p, i, left, passed, log);
        if short {
          SomeToRead(spec, n, p, i, left, passed, log);
          BarAhead(spec, n, p, ToRead(spec, n, i, left, passed));
        }
        p := p + 1;
      }
      if p < |spec| && IsVar(spec[p]) {
        var num := left - counts.post;
        VarTaken(spec, n, p, i, left, passed, log, |Letters(spec)| - Lead(spec));
        VarAhead(spec, n, p, i, left, log);
        p := p + 1;
        passed := true;
        if num > 0 {
          log, held := log + [Run(i, num)], true;
          left, i := left - num, i + num;
          continue;
        }
        log, held := log + [Run(i, 0)], false;
        NoSecondVar(spec, n, p, i, left, log);
      }
      var fits, q := ParseArg(spec, p, i, accept);
      if !fits {
        held := false;
        if short {
          if p < |spec| && !IsType(spec[p]) { Misplaced(spec, p0, p, run); }
          Stuck(spec, n, argCount, accept, p, i, left, passed, log);
        }
        return false, log, held;
      }
      LetterTaken(spec, n, p, q, i, left, passed, log);
      if short {
        SomeToRead(spec, n, p, i, left, passed, log);
        LetterAhead(spec, n, p, q, ToRead(spec, n, i, left, passed));
      }
      log := log + [Fixed(spec[p], i)];
      p, i, left := q, i + 1, left - 1;
    }
    AtEnd(spec, n, p, i, passed, log);
    AllRead(spec, n, p, i, passed);
    ok := true;
  }
}
