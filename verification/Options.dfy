/**
 The option suffix of a benchmark's name: vmops_utils_parse_options of utils.c, proved
 against the language of concatenated option words.
 */
module Options {
  datatype Token = Shared | Independent | Map4k | Isolated

  function Text(t: Token): (s: string)
    ensures |s| == match t case Shared => 7 case Independent => 12 case Map4k => 3 case Isolated => 9
  {
    match t
    case Shared => "-shared"
    case Independent => "-independent"
    case Map4k => "-4k"
    case Isolated => "-isolated"
  }

  /** strncmp(s, Text(t), strlen(Text(t))) == 0. */
  predicate StartsWith(s: string, t: Token) {
    Text(t) <= s
  }

  /** No option word is a prefix of another. */
  lemma PrefixFree(s: string, t: Token, u: Token)
    requires StartsWith(s, t) && StartsWith(s, u)
    ensures t == u
  {
    assert s[1] == Text(t)[1] == Text(u)[1];
    assert s[2] == Text(t)[2] == Text(u)[2];
  }

  function Concat(ts: seq<Token>): string {
    if ts == [] then "" else Text(ts[0]) + Concat(ts[1..])
  }

  lemma ConcatStep(t: Token, ts: seq<Token>)
    ensures Concat([t] + ts) == Text(t) + Concat(ts)
  {
    assert ([t] + ts)[1..] == ts;
  }

  lemma Associative(a: string, b: string, c: string)
    ensures a + (b + c) == a + b + c
  {
  }

  lemma {:induction false} ConcatAppend(a: seq<Token>, b: seq<Token>)
    ensures Concat(a + b) == Concat(a) + Concat(b)
  {
    if a == [] {
      assert a + b == b;
    } else {
      var t, rest := a[0], a[1..];
      ConcatAppend(rest, b);
      assert a + b == [t] + (rest + b);
      ConcatStep(t, rest + b);
      Associative(Text(t), Concat(rest), Concat(b));
    }
  }

  /** A string is the concatenation of at most one sequence of option words. */
  lemma {:induction false} UniqueDecomposition(a: seq<Token>, b: seq<Token>)
    requires Concat(a) == Concat(b)
    ensures a == b
    decreases |a|
  {
    if a != [] && b != [] {
      var s := Concat(a);
      assert StartsWith(s, a[0]) && StartsWith(s, b[0]);
      PrefixFree(s, a[0], b[0]);
      assert Concat(a[1..]) == s[|Text(a[0])|..] == Concat(b[1..]);
      UniqueDecomposition(a[1..], b[1..]);
      assert a == [a[0]] + a[1..] && b == [b[0]] + b[1..];
    }
  }

  predicate Compatible(ts: seq<Token>) {
    !(Shared in ts && Independent in ts)
  }

  datatype Flags = Flags(shared: bool, isolated: bool, map4k: bool)

  datatype Parsed = Refused | Accepted(flags: Flags)

  /** What a set of option words asks for; shared is the default. */
  function Meaning(ts: set<Token>): Flags {
    Flags(Independent !in ts, Isolated in ts, Map4k in ts)
  }

  function Words(ts: seq<Token>): set<Token> {
    set t | t in ts
  }

  /** struct vmops_bench_cfg, the fields that concern the options. */
  class BenchCfg {
    var shared: bool
    var isolated: bool
    var map4k: bool

    constructor ()
      ensures View() == Flags(true, false, false)
    {
      shared, isolated, map4k := true, false, false;
    }

    function View(): Flags
      reads this
    {
      Flags(shared, isolated, map4k)
    }
  }

  /** Where the loop stands: the words in front of current, and which flags they have set. */
  ghost predicate Scanned(opts: string, current: nat, ts: seq<Token>,
                          shared: bool, independent: bool, map4k: bool, isolated: bool) {
    && current <= |opts| && opts[..current] == Concat(ts)
    && shared == (Shared in ts) && independent == (Independent in ts)
    && map4k == (Map4k in ts) && isolated == (Isolated in ts)
  }

  lemma ScanWord(opts: string, current: nat, ts: seq<Token>, t: Token)
    requires current <= |opts| && opts[..current] == Concat(ts) && StartsWith(opts[current..], t)
    ensures current + |Text(t)| <= |opts|
    ensures opts[..current + |Text(t)|] == Concat(ts + [t])
  {
    ConcatAppend(ts, [t]);
    ConcatStep(t, []);
    assert [t] + [] == [t];
    assert opts[..current + |Text(t)|] == opts[..current] + opts[current..][..|Text(t)|];
  }

  lemma SamePrefix(pre: string, a: string, b: string)
    requires pre + a == pre + b
    ensures a == b
  {
    assert a == (pre + a)[|pre|..] && b == (pre + b)[|pre|..];
  }

  /** The string cannot be decomposed past a place where no option word starts. */
  lemma Stuck(opts: string, current: nat, ts: seq<Token>)
    requires current < |opts| && opts[..current] == Concat(ts)
    requires forall t :: !StartsWith(opts[current..], t)
    ensures Interpret(opts) == Refused
  {
    forall all | Concat(all) == opts ensures false {
      CommonPrefix(ts, all);
      var rest := all[|ts|..];
      ConcatAppend(ts, rest);
      assert all == ts + rest && opts == opts[..current] + opts[current..];
      SamePrefix(Concat(ts), Concat(rest), opts[current..]);
      assert rest != [] && StartsWith(Concat(rest), rest[0]);
    }
  }

  lemma DropPrefix(a: string, b: string, k: nat)
    requires a <= b && k <= |a|
    ensures a[k..] <= b[k..]
  {
    assert a == b[..|a|];
    assert a[k..] == b[k..][..|a| - k];
  }

  lemma {:induction false} CommonPrefix(ts: seq<Token>, all: seq<Token>)
    requires Concat(ts) <= Concat(all)
    ensures ts <= all
  {
    if ts != [] {
      var s := Concat(all);
      assert StartsWith(s, ts[0]);
      assert all != [] && StartsWith(s, all[0]);
      PrefixFree(s, ts[0], all[0]);
      assert Concat(ts)[|Text(ts[0])|..] == Concat(ts[1..]);
      assert s[|Text(ts[0])|..] == Concat(all[1..]);
      DropPrefix(Concat(ts), s, |Text(ts[0])|);
      CommonPrefix(ts[1..], all[1..]);
    }
  }

  /** What a string says as a sequence of option words, if it is an acceptable one. */
  ghost function Interpret(s: string): Parsed {
    if exists ts :: Concat(ts) == s && Compatible(ts) then
      var ts :| Concat(ts) == s && Compatible(ts);
      Accepted(Meaning(Words(ts)))
    else Refused
  }

  /** The sequence that was written decides, whatever Interpret chose. */
  lemma InterpretConcat(ts: seq<Token>)
    ensures Interpret(Concat(ts)) == if Compatible(ts) then Accepted(Meaning(Words(ts))) else Refused
  {
    forall all | Concat(all) == Concat(ts) ensures all == ts {
      UniqueDecomposition(all, ts);
    }
    if Compatible(ts) {
      assert exists all :: Concat(all) == Concat(ts) && Compatible(all);
    }
  }

  /**
   Word by word: both sharing words together are refused; otherwise -isolated and -4k set
   their flags, and the object is shared unless -independent says otherwise.
   */
  lemma ReadAs(ts: seq<Token>)
    ensures Interpret(Concat(ts)) ==
      if Shared in ts && Independent in ts then Refused
      else Accepted(Flags(Shared in ts || Independent !in ts, Isolated in ts, Map4k in ts))
  {
    InterpretConcat(ts);
    assert forall t :: t in ts <==> t in Words(ts);
  }

  /** Order and repetition of the words do not matter. */
  lemma OnlyTheSetMatters(a: seq<Token>, b: seq<Token>)
    requires Words(a) == Words(b)
    ensures Interpret(Concat(a)) == Interpret(Concat(b))
  {
    InterpretConcat(a);
    InterpretConcat(b);
    assert forall t :: t in a <==> t in Words(a);
    assert forall t :: t in b <==> t in Words(b);
  }

  /**
   utils.c:32-74. A string is accepted exactly when it is a concatenation of option words
   that does not hold both -shared and -independent; the flags are then the meaning of
   the words; otherwise the configuration is left alone.
   */
  method ParseOptions(opts: string, cfg: BenchCfg) returns (ok: bool)
    modifies cfg
    ensures ok <==> Interpret(opts).Accepted?
    ensures cfg.View() == if ok then Interpret(opts).flags else old(cfg.View())
  {
    ghost var ts := [];
    var current := 0;
    var shared, independent, isolated, map4k := false, false, false, false;
    while current < |opts|
      invariant Scanned(opts, current, ts, shared, independent, map4k, isolated)
      invariant cfg.View() == old(cfg.View())
      decreases |opts| - current
    {
      ghost var t: Token;
      if StartsWith(opts[current..], Shared) {
        ScanWord(opts, current, ts, Shared);
        current := current + 7;
        shared := true;
        t := Shared;
      } else if StartsWith(opts[current..], Independent) {
        ScanWord(opts, current, ts, Independent);
        current := current + 12;
        independent := true;
        t := Independent;
      } else if StartsWith(opts[current..], Map4k) {
        ScanWord(opts, current, ts, Map4k);
        current := current + 3;
        map4k := true;
        t := Map4k;
      } else if StartsWith(opts[current..], Isolated) {
        ScanWord(opts, current, ts, Isolated);
        current := current + 9;
        isolated := true;
        t := Isolated;
      } else {
        Stuck(opts, current, ts);
        return false;
      }
      ts := ts + [t];
    }
    assert opts[..current] == opts;
    InterpretConcat(ts);
    if shared && independent {
      return false;
    }
    if !(shared || independent) {
      shared := true;
    }
    cfg.shared := shared;
    cfg.isolated := isolated;
    cfg.map4k := map4k;
    ok := true;
  }

  // ---- the names the run script builds -------------------------------------------------

  /** scripts/run.sh:35: "$i-$s$m", behind the name of the benchmark. */
  function ScriptSuffix(isolated: bool, shared: bool, map4k: bool): string {
    (if isolated then "-isolated" else "") + "-" + (if shared then "shared" else "independent")
    + (if map4k then "-4k" else "")
  }

  function ScriptWords(isolated: bool, shared: bool, map4k: bool): seq<Token> {
    Optional(isolated, Isolated) + [if shared then Shared else Independent] + Optional(map4k, Map4k)
  }

  lemma ConcatOne(t: Token)
    ensures Concat([t]) == Text(t)
  {
    ConcatStep(t, []);
    assert [t] + [] == [t];
  }

  lemma ConcatAround(a: seq<Token>, t: Token, b: seq<Token>)
    ensures Concat(a + [t] + b) == Concat(a) + Text(t) + Concat(b)
  {
    ConcatAppend(a + [t], b);
    ConcatAppend(a, [t]);
    ConcatOne(t);
  }

  lemma DashBelongsToName(a: string, name: string, b: string)
    ensures a + "-" + name + b == a + ("-" + name) + b
  {
  }

  function Optional(on: bool, t: Token): seq<Token> {
    if on then [t] else []
  }

  lemma ConcatOptional(on: bool, t: Token)
    ensures Concat(Optional(on, t)) == if on then Text(t) else ""
  {
    ConcatOne(t);
  }

  lemma ScriptSuffixWords(isolated: bool, shared: bool, map4k: bool)
    ensures ScriptSuffix(isolated, shared, map4k) == Concat(ScriptWords(isolated, shared, map4k))
  {
    ConcatOptional(isolated, Isolated);
    ConcatOptional(map4k, Map4k);
    ConcatAround(Optional(isolated, Isolated), if shared then Shared else Independent, Optional(map4k, Map4k));
    DashBelongsToName(if isolated then "-isolated" else "", if shared then "shared" else "independent",
                      if map4k then "-4k" else "");
    assert Text(if shared then Shared else Independent) == "-" + (if shared then "shared" else "independent");
  }

  /** Each of the eight combinations is read back. */
  lemma ScriptSuffixParses(isolated: bool, shared: bool, map4k: bool)
    ensures Interpret(ScriptSuffix(isolated, shared, map4k)) == Accepted(Flags(shared, isolated, map4k))
  {
    ScriptSuffixWords(isolated, shared, map4k);
    var ts := ScriptWords(isolated, shared, map4k);
    assert Isolated in ts <==> isolated;
    assert Map4k in ts <==> map4k;
    assert Shared in ts <==> shared;
    assert Independent in ts <==> !shared;
    InterpretConcat(ts);
  }
}
