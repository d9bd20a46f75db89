/** Log filters: topics rewritten to a cartesian product, scanned by prefix, and pre-checked against blooms. */
module LogFilters {
  import opened Wrappers
  import opened Blooms

  datatype ValueOrArray<T> = Value(value: T) | Array(values: seq<T>)

  /** A topic position: one value or several alternatives, each possibly null. */
  type Topic = ValueOrArray<Option<Bytes>>

  datatype Filter = Filter(address: Option<ValueOrArray<Bytes>>, topics: seq<Option<Topic>>)

  type Combination = seq<Option<Bytes>>

  type BloomFilter = seq<Option<Bloom>>

  // ---------------------------------------------------------------- the cartesian product

  function Alternatives(t: Option<Topic>): seq<Option<Bytes>> {
    match t
    case None => [None]
    case Some(Value(v)) => [v]
    case Some(Array(vs)) => vs
  }

  function Lists(topics: seq<Option<Topic>>): (lists: seq<seq<Option<Bytes>>>)
    ensures |lists| == |topics| && forall k :: 0 <= k < |topics| ==> lists[k] == Alternatives(topics[k])
  {
    seq(|topics|, k requires 0 <= k < |topics| => Alternatives(topics[k]))
  }

  /** One combination extended by every alternative. */
  function ExtendOne(r: Combination, list: seq<Option<Bytes>>): (out: seq<Combination>)
    ensures |out| == |list| && forall j :: 0 <= j < |list| ==> out[j] == r + [list[j]]
  {
    seq(|list|, j requires 0 <= j < |list| => r + [list[j]])
  }

  function Extend(res: seq<Combination>, list: seq<Option<Bytes>>): seq<Combination> {
    if res == [] then [] else Extend(res[..|res| - 1], list) + ExtendOne(res[|res| - 1], list)
  }

  function Cartesian(lists: seq<seq<Option<Bytes>>>): seq<Combination> {
    if lists == [] then []
    else if |lists| == 1 then ExtendOne([], lists[0])
    else Extend(Cartesian(lists[..|lists| - 1]), lists[|lists| - 1])
  }

  function Flatten(topics: seq<Option<Topic>>): (flat: seq<Topic>)
    ensures |flat| == |Cartesian(Lists(topics))|
    ensures forall i :: 0 <= i < |flat| ==> flat[i] == Array(Cartesian(Lists(topics))[i])
  {
    var combinations := Cartesian(Lists(topics));
    seq(|combinations|, i requires 0 <= i < |combinations| => Array(combinations[i]))
  }

  ghost predicate Picks(c: Combination, lists: seq<seq<Option<Bytes>>>) {
    |c| == |lists| && forall k :: 0 <= k < |lists| ==> c[k] in lists[k]
  }

  lemma {:induction false} ExtendHas(res: seq<Combination>, list: seq<Option<Bytes>>, c: Combination)
    ensures c in Extend(res, list) <==> c != [] && c[..|c| - 1] in res && c[|c| - 1] in list
    decreases |res|
  {
    if res != [] {
      var front, last := res[..|res| - 1], res[|res| - 1];
      ExtendHas(front, list, c);
      var one := ExtendOne(last, list);
      assert c in Extend(res, list) <==> c in Extend(front, list) || c in one;
      if c != [] && c[..|c| - 1] == last && c[|c| - 1] in list {
        var j :| 0 <= j < |list| && list[j] == c[|c| - 1];
        assert one[j] == last + [list[j]] == c;
      }
    }
  }

  lemma {:induction false} SingleHas(lists: seq<seq<Option<Bytes>>>, c: Combination)
    requires |lists| == 1
    ensures c in ExtendOne([], lists[0]) <==> Picks(c, lists)
  {
    var out := ExtendOne([], lists[0]);
    if j :| 0 <= j < |out| && out[j] == c {
      assert c == [] + [lists[0][j]] == [lists[0][j]];
    }
    if Picks(c, lists) {
      assert c[0] in lists[0];
      var j :| 0 <= j < |lists[0]| && lists[0][j] == c[0];
      assert out[j] == [] + [c[0]] == c;
    }
  }

  /** The product holds exactly the ways to pick one alternative per position. */
  lemma {:induction false} CartesianHas(lists: seq<seq<Option<Bytes>>>, c: Combination)
    requires lists != []
    ensures c in Cartesian(lists) <==> Picks(c, lists)
    decreases |lists|
  {
    if |lists| == 1 {
      SingleHas(lists, c);
    } else {
      hide Extend;
      var front, last := lists[..|lists| - 1], lists[|lists| - 1];
      ExtendHas(Cartesian(front), last, c);
      if c != [] {
        var shorter := c[..|c| - 1];
        CartesianHas(front, shorter);
        assert Picks(c, lists) <==> Picks(shorter, front) && c[|c| - 1] in last by {
          if |c| == |lists| {
            assert forall k :: 0 <= k < |front| ==> front[k] == lists[k] && shorter[k] == c[k];
          }
        }
      }
    }
  }

  // ---------------------------------------------------------------- scanning by prefix

  /** Trailing wildcards removed. */
  function Shrink(c: Combination): (s: Combination)
    ensures |s| <= |c| && s == c[..|s|]
    ensures s != [] ==> s[|s| - 1].Some?
    ensures forall k :: |s| <= k < |c| ==> c[k].None?
  {
    if c != [] && c[|c| - 1].None? then Shrink(c[..|c| - 1]) else c
  }

  /** Wildcards replaced by the log's own topics. */
  function Replace(log: Log, c: Combination): (out: seq<Bytes>)
    requires |c| <= |log.topics|
    ensures |out| == |c|
    ensures forall k :: 0 <= k < |c| ==> out[k] == if c[k].Some? then c[k].value else log.topics[k]
  {
    seq(|c|, k requires 0 <= k < |c| => if c[k].Some? then c[k].value else log.topics[k])
  }

  datatype Verdict = Continue(out: bool) | Break(out: bool)

  function Judge(topic: Topic, log: Log, out: bool): Verdict {
    match topic
    case Value(single) => Continue(out && (single.Some? ==> [single.value] <= log.topics))
    case Array(multi) =>
      if multi == [] then Continue(true)
      else
        var shrunk := Shrink(multi);
        if |shrunk| > |log.topics| then Break(false)
        else if shrunk == [] then Continue(out)
        else if Replace(log, shrunk) <= log.topics then Break(true)
        else Continue(false)
  }

  function Scan(flat: seq<Topic>, log: Log, out: bool): bool {
    if flat == [] then out
    else
      match Judge(flat[0], log, out)
      case Break(o) => o
      case Continue(o) => Scan(flat[1..], log, o)
  }

  predicate FilterTopics(flat: seq<Topic>, log: Log) {
    Scan(flat, log, true)
  }

  predicate FilterAddress(address: Option<ValueOrArray<Bytes>>, log: Log) {
    match address
    case None => true
    case Some(Value(x)) => log.address == x
    case Some(Array(xs)) => xs == [] || log.address in xs
  }

  // ---------------------------------------------------------------- the positionwise meaning

  /** A position admits a log when null is among the alternatives, or the log's topic there is. */
  ghost predicate Admits(list: seq<Option<Bytes>>, log: Log, k: nat) {
    None in list || (k < |log.topics| && Some(log.topics[k]) in list)
  }

  ghost predicate TopicsMatch(topics: seq<Option<Topic>>, log: Log) {
    forall k :: 0 <= k < |topics| ==> Admits(Alternatives(topics[k]), log, k)
  }

  ghost predicate ProperList(list: seq<Option<Bytes>>) {
    list == [None] || (list != [] && forall j :: 0 <= j < |list| ==> list[j].Some?)
  }

  // ---------------------------------------------------------------- scanning any combinations

  ghost predicate Fits(c: Combination, log: Log) {
    forall k :: 0 <= k < |c| && c[k].Some? ==> k < |log.topics| && log.topics[k] == c[k].value
  }

  lemma {:induction false} PrefixFits(c: Combination, log: Log)
    requires |Shrink(c)| <= |log.topics|
    ensures Replace(log, Shrink(c)) <= log.topics <==> Fits(c, log)
  {
    var s := Shrink(c);
    assert s == c[..|s|];
    var out := Replace(log, s);
    assert out <= log.topics <==> forall k :: 0 <= k < |s| ==> out[k] == log.topics[k];
  }

  /** All values are null. */
  ghost predicate Wild(c: Combination) {
    forall k :: 0 <= k < |c| ==> c[k].None?
  }

  /** Some value lies beyond the log's topics. */
  ghost predicate OverLong(c: Combination, m: nat) {
    exists k :: m <= k < |c| && c[k].Some?
  }

  lemma {:induction false} Shrunk(c: Combination, m: nat)
    ensures Shrink(c) == [] <==> Wild(c)
    ensures |Shrink(c)| > m <==> OverLong(c, m)
  {
    var s := Shrink(c);
    assert s == c[..|s|];
    if s != [] {
      assert c[|s| - 1].Some?;
    }
  }

  /** The combination at a position matches, and nothing before it stops the scan. */
  ghost predicate Hit(cs: seq<Combination>, log: Log, i: nat) {
    && i < |cs| && !Wild(cs[i]) && Fits(cs[i], log)
    && forall j :: 0 <= j < i ==> !OverLong(cs[j], |log.topics|)
  }

  ghost predicate AllWild(cs: seq<Combination>) {
    forall i :: 0 <= i < |cs| ==> Wild(cs[i])
  }

  ghost predicate NonEmpty(cs: seq<Combination>) {
    forall i :: 0 <= i < |cs| ==> cs[i] != []
  }

  function Arrays(cs: seq<Combination>): (flat: seq<Topic>)
    ensures |flat| == |cs| && forall i :: 0 <= i < |cs| ==> flat[i] == Array(cs[i])
  {
    seq(|cs|, i requires 0 <= i < |cs| => Array(cs[i]))
  }

  lemma {:induction false} JudgeOne(c: Combination, log: Log, out: bool)
    requires c != []
    ensures Judge(Array(c), log, out) ==
      if OverLong(c, |log.topics|) then Break(false)
      else if Wild(c) then Continue(out)
      else if Fits(c, log) then Break(true)
      else Continue(false)
  {
    Shrunk(c, |log.topics|);
    if |Shrink(c)| <= |log.topics| {
      PrefixFits(c, log);
    }
  }

  lemma {:induction false} HitTail(cs: seq<Combination>, log: Log)
    requires cs != [] && !OverLong(cs[0], |log.topics|) && !Hit(cs, log, 0)
    ensures (exists i :: Hit(cs, log, i)) <==> exists i :: Hit(cs[1..], log, i)
  {
    hide Wild, Fits, OverLong;
    var rest := cs[1..];
    if i: nat :| Hit(cs, log, i) {
      assert forall j :: 0 <= j < i - 1 ==> rest[j] == cs[j + 1];
      assert Hit(rest, log, i - 1);
    }
    if i: nat :| Hit(rest, log, i) {
      assert forall j :: 0 < j <= i ==> cs[j] == rest[j - 1];
      assert Hit(cs, log, i + 1);
    }
  }

  /**
   * Scanning any list of combinations: accepted exactly when some combination that is not all null matches before
   * an over-long one is met, or when all are null and the verdict was true to begin with.
   */
  lemma {:induction false} ScanExact(cs: seq<Combination>, log: Log, out: bool)
    requires NonEmpty(cs)
    ensures Scan(Arrays(cs), log, out) <==> (out && AllWild(cs)) || exists i :: Hit(cs, log, i)
    decreases |cs|
  {
    hide Judge, Wild, Fits, OverLong;
    if cs != [] {
      var rest, flat := cs[1..], Arrays(cs);
      JudgeOne(cs[0], log, out);
      assert flat[1..] == Arrays(rest);
      LongNeverFits(cs[0], log);
      assert AllWild(cs) <==> Wild(cs[0]) && AllWild(rest) by {
        assert forall j :: 0 < j < |cs| ==> cs[j] == rest[j - 1];
      }
      if !OverLong(cs[0], |log.topics|) && !Hit(cs, log, 0) {
        HitTail(cs, log);
        ScanExact(rest, log, out && Wild(cs[0]));
      }
    }
  }

  lemma {:induction false} LongNeverFits(c: Combination, log: Log)
    ensures OverLong(c, |log.topics|) ==> !Wild(c) && !Fits(c, log)
  {
  }

  // ---------------------------------------------------------------- the order of the product

  ghost predicate Inhabited(lists: seq<seq<Option<Bytes>>>) {
    forall k :: 0 <= k < |lists| ==> lists[k] != []
  }

  /** The first alternative of every position. */
  function First(lists: seq<seq<Option<Bytes>>>): (c: Combination)
    ensures |c| == |lists|
    ensures forall k :: 0 <= k < |lists| && lists[k] != [] ==> c[k] == lists[k][0]
  {
    seq(|lists|, k requires 0 <= k < |lists| => if lists[k] == [] then None else lists[k][0])
  }

  lemma {:induction false} ExtendConcat(a: seq<Combination>, b: seq<Combination>, list: seq<Option<Bytes>>)
    ensures Extend(a + b, list) == Extend(a, list) + Extend(b, list)
    decreases |b|
  {
    if b == [] {
      assert a + b == a;
    } else {
      var front, last := b[..|b| - 1], b[|b| - 1];
      assert (a + b)[..|a + b| - 1] == a + front;
      ExtendConcat(a, front, list);
    }
  }

  lemma {:induction false} ExtendSingle(c: Combination, list: seq<Option<Bytes>>)
    ensures Extend([c], list) == ExtendOne(c, list)
  {
    assert [c][..0] == [];
    assert [] + ExtendOne(c, list) == ExtendOne(c, list);
  }

  lemma {:induction false} ExtendStart(cs: seq<Combination>, list: seq<Option<Bytes>>)
    requires cs != [] && list != []
    ensures Extend(cs, list) != [] && Extend(cs, list)[0] == cs[0] + [list[0]]
  {
    assert cs == [cs[0]] + cs[1..];
    ExtendConcat([cs[0]], cs[1..], list);
    ExtendSingle(cs[0], list);
  }

  lemma {:induction false} FirstStart(lists: seq<seq<Option<Bytes>>>)
    requires lists != [] && Inhabited(lists)
    ensures Cartesian(lists) != [] && Cartesian(lists)[0] == First(lists)
    decreases |lists|
  {
    hide Extend;
    if |lists| == 1 {
      assert Cartesian(lists)[0] == [] + [lists[0][0]] == First(lists);
    } else {
      var front, last := lists[..|lists| - 1], lists[|lists| - 1];
      FirstStart(front);
      ExtendStart(Cartesian(front), last);
      assert First(front) + [last[0]] == First(lists);
    }
  }

  /** The product starts with the first alternatives, and is empty exactly when there is nothing to pick from. */
  lemma {:induction false} ProductStart(lists: seq<seq<Option<Bytes>>>)
    requires lists != []
    ensures Cartesian(lists) != [] <==> Inhabited(lists)
    ensures Inhabited(lists) ==> Cartesian(lists)[0] == First(lists)
  {
    hide Cartesian;
    if Inhabited(lists) {
      FirstStart(lists);
    }
    if Cartesian(lists) != [] {
      CartesianHas(lists, Cartesian(lists)[0]);
    }
  }

  /** All combinations before this over-long one start alike. */
  ghost predicate Leads(cs: seq<Combination>, m: nat, start: Combination, j: nat) {
    && j < |cs| && OverLong(cs[j], m)
    && forall i :: 0 <= i <= j ==> m <= |cs[i]| && cs[i][..m] == start
  }

  lemma {:induction false} LeadsExtend(
    cs: seq<Combination>, m: nat, start: Combination, j: nat, list: seq<Option<Bytes>>)
    returns (j': nat)
    requires Leads(cs, m, start, j) && list != []
    ensures Leads(Extend(cs, list), m, start, j')
  {
    var before, after := cs[..j], cs[j + 1..];
    assert cs == before + ([cs[j]] + after);
    ExtendConcat(before, [cs[j]] + after, list);
    ExtendConcat([cs[j]], after, list);
    ExtendSingle(cs[j], list);
    var out := Extend(cs, list);
    j' := |Extend(before, list)|;
    assert out[j'] == cs[j] + [list[0]];
    forall i | 0 <= i <= j' ensures m <= |out[i]| && out[i][..m] == start {
      if i < j' {
        var c := out[i];
        assert c in Extend(before, list);
        ExtendHas(before, list, c);
        assert c[..m] == c[..|c| - 1][..m];
      }
    }
    var k :| m <= k < |cs[j]| && cs[j][k].Some?;
    assert out[j'][k].Some?;
  }

  lemma {:induction false} LeadsFresh(c: Combination, cs: seq<Combination>, list: seq<Option<Bytes>>, m: nat, e: nat)
    requires m <= |c| && e < |list| && list[e].Some?
    ensures Leads(Extend([c] + cs, list), m, c[..m], e)
  {
    hide Extend;
    ExtendConcat([c], cs, list);
    ExtendSingle(c, list);
    var out := Extend([c] + cs, list);
    forall i | 0 <= i <= e ensures out[i] == c + [list[i]] && out[i][..m] == c[..m] {
      assert out[i] == ExtendOne(c, list)[i];
      assert (c + [list[i]])[..m] == c[..m];
    }
    assert out[e][|c|].Some?;
  }

  /** With a value beyond the log's topics, an over-long combination comes before the start ever changes. */
  lemma {:induction false} LongComesEarly(lists: seq<seq<Option<Bytes>>>, m: nat, k: nat, e: nat) returns (j: nat)
    requires Inhabited(lists) && m <= k < |lists| && e < |lists[k]| && lists[k][e].Some?
    ensures Leads(Cartesian(lists), m, First(lists)[..m], j)
    decreases |lists|
  {
    if |lists| == 1 {
      j := e;
      var cs := Cartesian(lists);
      assert cs[e] == [] + [lists[0][e]];
      assert cs[e][0].Some?;
    } else {
      var n := |lists| - 1;
      var front, last := lists[..n], lists[n];
      assert First(lists)[..n] == First(front);
      assert First(lists)[..m] == First(front)[..m];
      ProductStart(front);
      var cs := Cartesian(front);
      if k < n {
        j := LongComesEarly(front, m, k, e);
        j := LeadsExtend(cs, m, First(front)[..m], j, last);
      } else {
        assert cs == [cs[0]] + cs[1..];
        LeadsFresh(cs[0], cs[1..], last, m, e);
        j := e;
      }
    }
  }

  // ---------------------------------------------------------------- what a filter accepts

  /** Some position beyond the log's topics has a value among its alternatives. */
  ghost predicate Exceeds(lists: seq<seq<Option<Bytes>>>, m: nat) {
    exists k, e :: m <= k < |lists| && 0 <= e < |lists[k]| && lists[k][e].Some?
  }

  ghost predicate NoValues(lists: seq<seq<Option<Bytes>>>) {
    forall k, e :: 0 <= k < |lists| && 0 <= e < |lists[k]| ==> lists[k][e].None?
  }

  /** Some topic of the log is an alternative at its position. */
  ghost predicate Touches(lists: seq<seq<Option<Bytes>>>, log: Log) {
    exists k :: 0 <= k < |lists| && k < |log.topics| && Some(log.topics[k]) in lists[k]
  }

  ghost predicate AdmitsAll(lists: seq<seq<Option<Bytes>>>, log: Log) {
    forall k :: 0 <= k < |lists| ==> Admits(lists[k], log, k)
  }

  /** What the scan of the product comes to. */
  ghost predicate Accepts(lists: seq<seq<Option<Bytes>>>, log: Log) {
    if Exceeds(lists, |log.topics|) then !Wild(First(lists)) && Fits(First(lists), log)
    else NoValues(lists) || (AdmitsAll(lists, log) && Touches(lists, log))
  }

  lemma {:induction false} HitIsFirst(lists: seq<seq<Option<Bytes>>>, log: Log)
    requires lists != [] && Inhabited(lists) && Exceeds(lists, |log.topics|)
    ensures (exists i :: Hit(Cartesian(lists), log, i)) <==> !Wild(First(lists)) && Fits(First(lists), log)
    ensures !AllWild(Cartesian(lists))
  {
    hide Cartesian, Fits, Wild;
    var m, cs, first := |log.topics|, Cartesian(lists), First(lists);
    ProductStart(lists);
    var k, e :| m <= k < |lists| && 0 <= e < |lists[k]| && lists[k][e].Some?;
    var j := LongComesEarly(lists, m, k, e);
    LongNeverFits(cs[j], log);
    LongNeverFits(cs[0], log);
    if !Wild(first) && Fits(first, log) {
      assert Hit(cs, log, 0);
    }
    if i: nat :| Hit(cs, log, i) {
      assert i <= j;
      CartesianHas(lists, cs[i]);
      SameStart(cs[i], first, log);
    }
  }

  lemma {:induction false} SameStart(c: Combination, first: Combination, log: Log)
    requires |c| == |first| && |log.topics| <= |c| && c[..|log.topics|] == first[..|log.topics|]
    requires !OverLong(first, |log.topics|) && !Wild(c) && Fits(c, log)
    ensures !Wild(first) && Fits(first, log)
  {
    var m := |log.topics|;
    forall k | 0 <= k < m ensures c[k] == first[k] {
      assert c[..m][k] == first[..m][k];
    }
    var k :| 0 <= k < |c| && c[k].Some?;
    assert k < m && first[k].Some?;
  }

  /** The combination that agrees with the log wherever it can. */
  function Closest(lists: seq<seq<Option<Bytes>>>, log: Log): (c: Combination)
    ensures |c| == |lists|
  {
    seq(|lists|, k requires 0 <= k < |lists| =>
      if k < |log.topics| && Some(log.topics[k]) in lists[k] then Some(log.topics[k]) else None)
  }

  lemma {:induction false} FitMeansAdmits(lists: seq<seq<Option<Bytes>>>, log: Log, c: Combination)
    requires Picks(c, lists) && Fits(c, log)
    ensures AdmitsAll(lists, log) && (!Wild(c) ==> Touches(lists, log))
  {
    forall k | 0 <= k < |lists| ensures Admits(lists[k], log, k) {
      assert c[k] in lists[k];
      assert c[k] == None || c[k] == Some(log.topics[k]);
    }
    if k :| 0 <= k < |c| && c[k].Some? {
      assert c[k] in lists[k] && c[k] == Some(log.topics[k]);
    }
  }

  lemma {:induction false} ClosestHits(lists: seq<seq<Option<Bytes>>>, log: Log) returns (i: nat)
    requires lists != [] && !Exceeds(lists, |log.topics|) && AdmitsAll(lists, log) && Touches(lists, log)
    ensures Hit(Cartesian(lists), log, i)
  {
    hide Cartesian, OverLong, Exceeds;
    var cs, c := Cartesian(lists), Closest(lists, log);
    forall k | 0 <= k < |lists| ensures c[k] in lists[k] {
      assert Admits(lists[k], log, k);
    }
    CartesianHas(lists, c);
    i :| 0 <= i < |cs| && cs[i] == c;
    NothingExceeds(lists, |log.topics|);
    var k :| 0 <= k < |lists| && k < |log.topics| && Some(log.topics[k]) in lists[k];
    assert c[k].Some?;
  }

  lemma {:induction false} HitMeansAdmits(lists: seq<seq<Option<Bytes>>>, log: Log)
    requires lists != [] && Inhabited(lists) && !Exceeds(lists, |log.topics|)
    ensures (exists i :: Hit(Cartesian(lists), log, i)) <==> AdmitsAll(lists, log) && Touches(lists, log)
  {
    hide Cartesian, Exceeds, AdmitsAll, Touches, Fits, Wild, OverLong;
    var cs := Cartesian(lists);
    if i: nat :| Hit(cs, log, i) {
      CartesianHas(lists, cs[i]);
      FitMeansAdmits(lists, log, cs[i]);
    }
    if AdmitsAll(lists, log) && Touches(lists, log) {
      var i := ClosestHits(lists, log);
    }
  }

  lemma {:induction false} NothingExceeds(lists: seq<seq<Option<Bytes>>>, m: nat)
    requires lists != [] && !Exceeds(lists, m)
    ensures forall j :: 0 <= j < |Cartesian(lists)| ==> !OverLong(Cartesian(lists)[j], m)
  {
    var cs := Cartesian(lists);
    forall j | 0 <= j < |cs| ensures !OverLong(cs[j], m) {
      CartesianHas(lists, cs[j]);
      forall k | m <= k < |lists| ensures cs[j][k].None? {
        var e :| 0 <= e < |lists[k]| && lists[k][e] == cs[j][k];
      }
    }
  }

  lemma {:induction false} AllWildMeans(lists: seq<seq<Option<Bytes>>>)
    requires lists != [] && Inhabited(lists)
    ensures AllWild(Cartesian(lists)) <==> NoValues(lists)
  {
    var cs := Cartesian(lists);
    if NoValues(lists) {
      forall i | 0 <= i < |cs| ensures Wild(cs[i]) {
        CartesianHas(lists, cs[i]);
      }
    }
    if AllWild(cs) {
      forall k, e | 0 <= k < |lists| && 0 <= e < |lists[k]| ensures lists[k][e].None? {
        var c := First(lists)[k := lists[k][e]];
        CartesianHas(lists, c);
        var i :| 0 <= i < |cs| && cs[i] == c;
        assert cs[i][k].None?;
      }
    }
  }

  /**
   * What every filter accepts. If some position has no alternatives, everything. Otherwise, if a position beyond
   * the log's topics has a value among its alternatives, exactly the logs that the first alternatives match, not
   * all null. Otherwise exactly the logs that every position admits and some value touches, or all when there is
   * no value at all.
   */
  lemma {:induction false} FilterTopicsMeaning(topics: seq<Option<Topic>>, log: Log)
    ensures FilterTopics(Flatten(topics), log) <==>
      topics == [] || !Inhabited(Lists(topics)) || Accepts(Lists(topics), log)
    ensures Flatten(topics) == [] <==> topics == [] || !Inhabited(Lists(topics))
  {
    hide Scan, Wild, Fits, OverLong, Hit, AllWild, Accepts, Picks;
    var lists := Lists(topics);
    var cs := Cartesian(lists);
    assert Flatten(topics) == Arrays(cs);
    ScanNothing(log);
    if topics != [] {
      ProductStart(lists);
      if Inhabited(lists) {
        ProductNonEmpty(lists);
        ScanExact(cs, log, true);
        ScanAccepts(lists, log);
      }
    }
  }

  lemma {:induction false} ScanNothing(log: Log)
    ensures Scan([], log, true)
  {
  }

  lemma {:induction false} ProductNonEmpty(lists: seq<seq<Option<Bytes>>>)
    requires lists != []
    ensures NonEmpty(Cartesian(lists))
  {
    forall i | 0 <= i < |Cartesian(lists)| ensures Cartesian(lists)[i] != [] {
      CartesianHas(lists, Cartesian(lists)[i]);
    }
  }

  lemma {:induction false} ScanAccepts(lists: seq<seq<Option<Bytes>>>, log: Log)
    requires lists != [] && Inhabited(lists)
    ensures Accepts(lists, log) <==> AllWild(Cartesian(lists)) || exists i :: Hit(Cartesian(lists), log, i)
  {
    hide Wild, Fits, Hit, AllWild, NoValues, AdmitsAll, Touches, Exceeds;
    if Exceeds(lists, |log.topics|) {
      HitIsFirst(lists, log);
    } else {
      HitMeansAdmits(lists, log);
      AllWildMeans(lists);
    }
  }

  /** A filter never accepts a log that some position does not admit, unless it has a position without alternatives. */
  lemma {:induction false} AcceptedIsAdmitted(topics: seq<Option<Topic>>, log: Log)
    requires Inhabited(Lists(topics)) && FilterTopics(Flatten(topics), log)
    ensures TopicsMatch(topics, log)
  {
    hide Scan;
    FilterTopicsMeaning(topics, log);
    var lists := Lists(topics);
    if topics != [] && Exceeds(lists, |log.topics|) {
      assert Picks(First(lists), lists);
      FitMeansAdmits(lists, log, First(lists));
    } else if topics != [] && NoValues(lists) {
      forall k | 0 <= k < |topics| ensures Admits(lists[k], log, k) {
        assert lists[k][0].None?;
      }
    }
    assert forall k :: 0 <= k < |topics| ==> lists[k] == Alternatives(topics[k]);
  }

  /** No position has an empty list of alternatives, or a null next to other alternatives. */
  ghost predicate Proper(topics: seq<Option<Topic>>) {
    forall k :: 0 <= k < |topics| ==> ProperList(Alternatives(topics[k]))
  }

  lemma {:induction false} ValueIsTouched(topic: Option<Topic>, log: Log, k: nat, e: nat)
    requires ProperList(Alternatives(topic)) && Admits(Alternatives(topic), log, k)
    requires e < |Alternatives(topic)| && Alternatives(topic)[e].Some?
    ensures k < |log.topics| && Some(log.topics[k]) in Alternatives(topic)
  {
  }

  lemma {:induction false} ProperAccepts(topics: seq<Option<Topic>>, log: Log)
    requires Proper(topics) && topics != [] && TopicsMatch(topics, log)
    ensures Accepts(Lists(topics), log)
  {
    hide Wild, Fits;
    var lists: seq<seq<Option<Bytes>>> := Lists(topics);
    forall k, e | 0 <= k < |lists| && 0 <= e < |lists[k]| && lists[k][e].Some?
      ensures k < |log.topics| && Some(log.topics[k]) in lists[k]
    {
      ValueIsTouched(topics[k], log, k, e);
    }
    assert AdmitsAll(lists, log) by {
      assert forall k :: 0 <= k < |lists| ==> lists[k] == Alternatives(topics[k]);
    }
  }

  /** Where null stands alone and no list is empty, scanning by prefix means checking each position on its own. */
  lemma {:induction false} FilterTopicsExact(topics: seq<Option<Topic>>, log: Log)
    requires Proper(topics)
    ensures FilterTopics(Flatten(topics), log) <==> TopicsMatch(topics, log)
  {
    hide Scan, Accepts;
    FilterTopicsMeaning(topics, log);
    assert Inhabited(Lists(topics)) by {
      forall k | 0 <= k < |topics| ensures Lists(topics)[k] != [] {
        assert ProperList(Alternatives(topics[k]));
      }
    }
    if FilterTopics(Flatten(topics), log) {
      AcceptedIsAdmitted(topics, log);
    }
    if topics != [] && TopicsMatch(topics, log) {
      ProperAccepts(topics, log);
    }
  }

  /**
   * Exactly when the scan disagrees with the positions, for every filter and log: a position without alternatives;
   * or every position admits the log, but a value beyond its topics is scanned before a match, or there are values
   * and none of them touches it.
   */
  lemma {:induction false} FilterTopicsDisagrees(topics: seq<Option<Topic>>, log: Log)
    ensures var lists := Lists(topics);
      (FilterTopics(Flatten(topics), log) <==> TopicsMatch(topics, log)) <==>
        || topics == []
        || (Inhabited(lists) &&
            !(TopicsMatch(topics, log) &&
              if Exceeds(lists, |log.topics|) then Wild(First(lists)) || !Fits(First(lists), log)
              else !NoValues(lists) && !Touches(lists, log)))
  {
    hide Scan, Wild, Fits, Exceeds, NoValues, Touches;
    var lists := Lists(topics);
    FilterTopicsMeaning(topics, log);
    if Inhabited(lists) && FilterTopics(Flatten(topics), log) {
      AcceptedIsAdmitted(topics, log);
    }
    assert TopicsMatch(topics, log) <==> AdmitsAll(lists, log) by {
      assert forall k :: 0 <= k < |topics| ==> lists[k] == Alternatives(topics[k]);
    }
    if !Inhabited(lists) {
      NothingAdmits(lists, log);
    }
  }

  lemma {:induction false} NothingAdmits(lists: seq<seq<Option<Bytes>>>, log: Log)
    requires !Inhabited(lists)
    ensures !AdmitsAll(lists, log)
  {
    var k :| 0 <= k < |lists| && lists[k] == [];
    assert !Admits(lists[k], log, k);
  }

  // ---------------------------------------------------------------- the filters that mean their positions

  /** Every position from `m` on has a null among its alternatives, so that logs with `m` topics can be admitted. */
  ghost predicate NullFrom(lists: seq<seq<Option<Bytes>>>, m: nat) {
    forall k :: m <= k < |lists| ==> None in lists[k]
  }

  /** Every alternative of the position is the first one. */
  ghost predicate Lone(list: seq<Option<Bytes>>) {
    forall e :: 0 <= e < |list| ==> list[e] == list[0]
  }

  /**
   * For logs with `m` topics the first alternatives say what the positions say: none has a value from `m` on, some
   * has one before, and a position whose first alternative is a value has no other.
   */
  ghost predicate FirstDecides(lists: seq<seq<Option<Bytes>>>, m: nat) {
    && !Wild(First(lists))
    && !OverLong(First(lists), m)
    && forall k :: 0 <= k < m && k < |lists| && First(lists)[k].Some? ==> Lone(lists[k])
  }

  /** The scan means the positions: a condition on the filter alone. */
  ghost predicate Positional(lists: seq<seq<Option<Bytes>>>) {
    && Inhabited(lists)
    && (NoValues(lists) || exists k :: 0 <= k < |lists| && None !in lists[k])
    && forall m: nat :: Exceeds(lists, m) && NullFrom(lists, m) ==> FirstDecides(lists, m)
  }

  /** A value that is not in the list. */
  function Fresh(list: seq<Option<Bytes>>): (x: Bytes)
    ensures forall e :: 0 <= e < |list| && list[e].Some? ==> |list[e].value| < |x|
  {
    if list == [] then []
    else
      var x, last := Fresh(list[..|list| - 1]), list[|list| - 1];
      if last.Some? && |last.value| >= |x| then last.value + [0] else x + [0]
  }

  lemma {:induction false} PositionalAccepts(lists: seq<seq<Option<Bytes>>>, log: Log)
    requires Positional(lists) && AdmitsAll(lists, log)
    ensures Accepts(lists, log)
  {
    hide NoValues, Exceeds;
    var m := |log.topics|;
    if Exceeds(lists, m) {
      assert NullFrom(lists, m) by {
        assert forall k :: m <= k < |lists| ==> Admits(lists[k], log, k);
      }
      var first := First(lists);
      forall k | 0 <= k < |first| && first[k].Some? ensures k < m && log.topics[k] == first[k].value {
        assert Admits(lists[k], log, k) && Lone(lists[k]);
      }
    } else if k :| 0 <= k < |lists| && None !in lists[k] {
      assert Admits(lists[k], log, k);
    }
  }

  /** A log of topics no position mentions: admitted where every position has a null, and never touched. */
  lemma {:induction false} ForeignLog(lists: seq<seq<Option<Bytes>>>)
    requires NullFrom(lists, 0) && !NoValues(lists)
    ensures exists log :: AdmitsAll(lists, log) && !Accepts(lists, log)
  {
    var log := Log([], seq(|lists|, k requires 0 <= k < |lists| => Fresh(lists[k])));
    assert AdmitsAll(lists, log) && !Exceeds(lists, |log.topics|);
    assert !Touches(lists, log) by {
      forall k | 0 <= k < |lists| ensures Some(log.topics[k]) !in lists[k] {
        assert log.topics[k] == Fresh(lists[k]);
      }
    }
  }

  /** A log of `m` topics that follows the first alternatives, and has `x` at position `k`. */
  function Following(lists: seq<seq<Option<Bytes>>>, m: nat, k: nat, x: Bytes): (log: Log)
    ensures |log.topics| == m
  {
    var first := First(lists);
    Log([], seq(m, i requires 0 <= i < m =>
      if i == k then x else if i < |lists| && first[i].Some? then first[i].value else []))
  }

  lemma {:induction false} FollowingAdmitted(lists: seq<seq<Option<Bytes>>>, m: nat, k: nat, x: Bytes)
    requires Inhabited(lists) && NullFrom(lists, m)
    requires k < m && k < |lists| ==> Some(x) in lists[k] || None in lists[k]
    ensures AdmitsAll(lists, Following(lists, m, k, x))
  {
    var log := Following(lists, m, k, x);
    forall i | 0 <= i < |lists| ensures Admits(lists[i], log, i) {
      if i < m && i != k {
        assert lists[i][0] in lists[i];
      }
    }
  }

  lemma {:induction false} FirstMustDecide(lists: seq<seq<Option<Bytes>>>, m: nat)
    requires Inhabited(lists) && Exceeds(lists, m) && NullFrom(lists, m)
    requires forall log :: AdmitsAll(lists, log) ==> Accepts(lists, log)
    ensures FirstDecides(lists, m)
  {
    hide Exceeds, AdmitsAll;
    var first := First(lists);
    FollowingAdmitted(lists, m, m, []);
    assert Accepts(lists, Following(lists, m, m, []));
    forall k | 0 <= k < m && k < |lists| && first[k].Some? ensures Lone(lists[k]) {
      forall e | 0 <= e < |lists[k]| ensures lists[k][e] == first[k] {
        var x := if lists[k][e].Some? then lists[k][e].value else Fresh([first[k]]);
        FollowingAdmitted(lists, m, k, x);
        var log := Following(lists, m, k, x);
        assert Accepts(lists, log) && log.topics[k] == x;
        assert x == first[k].value;
      }
    }
  }

  /** For every filter: the scan agrees with the positions on all logs exactly when the filter is `Positional`. */
  lemma {:induction false} FilterTopicsAgrees(topics: seq<Option<Topic>>)
    ensures (forall log :: FilterTopics(Flatten(topics), log) <==> TopicsMatch(topics, log)) <==>
      Positional(Lists(topics))
  {
    var lists := Lists(topics);
    forall log
      ensures (FilterTopics(Flatten(topics), log) <==> TopicsMatch(topics, log)) <==>
        Inhabited(lists) && (AdmitsAll(lists, log) ==> Accepts(lists, log))
    {
      AgreesOn(topics, log);
    }
    hide FilterTopics, TopicsMatch, Accepts, AdmitsAll;
    if Inhabited(lists) && forall log :: AdmitsAll(lists, log) ==> Accepts(lists, log) {
      AlwaysPositional(lists);
    }
    if Positional(lists) {
      forall log | AdmitsAll(lists, log) ensures Accepts(lists, log) {
        PositionalAccepts(lists, log);
      }
    }
    var none := Log([], []);
    assert (FilterTopics(Flatten(topics), none) <==> TopicsMatch(topics, none)) ==> Inhabited(lists);
  }

  lemma {:induction false} AgreesOn(topics: seq<Option<Topic>>, log: Log)
    ensures var lists := Lists(topics);
      (FilterTopics(Flatten(topics), log) <==> TopicsMatch(topics, log)) <==>
        Inhabited(lists) && (AdmitsAll(lists, log) ==> Accepts(lists, log))
  {
    var lists := Lists(topics);
    hide FilterTopics, Wild, Fits, Touches;
    FilterTopicsDisagrees(topics, log);
    assert TopicsMatch(topics, log) <==> AdmitsAll(lists, log) by {
      assert forall k :: 0 <= k < |topics| ==> lists[k] == Alternatives(topics[k]);
    }
  }

  lemma {:induction false} AlwaysPositional(lists: seq<seq<Option<Bytes>>>)
    requires Inhabited(lists) && forall log :: AdmitsAll(lists, log) ==> Accepts(lists, log)
    ensures Positional(lists)
  {
    hide Accepts, AdmitsAll, FirstDecides, Exceeds, NoValues;
    if NullFrom(lists, 0) && !NoValues(lists) {
      ForeignLog(lists);
    }
    forall m: nat | Exceeds(lists, m) && NullFrom(lists, m) ensures FirstDecides(lists, m) {
      FirstMustDecide(lists, m);
    }
  }

  /** The filter "first topic b, second topic a or anything", with the two alternatives in either order. */
  function NullAmong(a: Bytes, b: Bytes, nullFirst: bool): seq<Option<Topic>> {
    [Some(Value(Some(b))), Some(Array(if nullFirst then [None, Some(a)] else [Some(a), None]))]
  }

  /** With a null among other alternatives their order can decide: a long combination hides a shorter one behind it. */
  lemma {:induction false} NullAlternativeHidesMatch(a: Bytes, b: Bytes)
    ensures FilterTopics(Flatten(NullAmong(a, b, true)), Log([], [b]))
    ensures !FilterTopics(Flatten(NullAmong(a, b, false)), Log([], [b]))
    ensures TopicsMatch(NullAmong(a, b, false), Log([], [b]))
  {
    hide Scan;
    var log := Log([], [b]);
    var long, short := Lists(NullAmong(a, b, false)), Lists(NullAmong(a, b, true));
    FilterTopicsMeaning(NullAmong(a, b, true), log);
    FilterTopicsMeaning(NullAmong(a, b, false), log);
    assert long[1][0] == Some(a) && short[1][1] == Some(a);
    assert First(long)[1] == Some(a) && First(short)[0] == Some(b);
    assert NullAmong(a, b, false)[1] == Some(Array([Some(a), None]));
    var list: seq<Option<Bytes>> := [Some(a), None];
    assert list[1] == None;
  }

  /** In a single position the order does not matter: a log with another topic is refused although null admits it. */
  lemma {:induction false} LoneNullRefuses(a: Bytes, x: Bytes, nullFirst: bool)
    requires a != x
    ensures var topics: seq<Option<Topic>> := [Some(Array(if nullFirst then [None, Some(a)] else [Some(a), None]))];
      !FilterTopics(Flatten(topics), Log([], [x])) && TopicsMatch(topics, Log([], [x]))
  {
    hide Scan;
    var list: seq<Option<Bytes>> := if nullFirst then [None, Some(a)] else [Some(a), None];
    var topics: seq<Option<Topic>> := [Some(Array(list))];
    FilterTopicsMeaning(topics, Log([], [x]));
    assert list[if nullFirst then 0 else 1] == None && list[if nullFirst then 1 else 0] == Some(a);
    assert Lists(topics)[0] == list;
  }

  /** A position without alternatives empties the product, which accepts every log, though no log is admitted. */
  lemma {:induction false} EmptyAlternativesAcceptAll(topics: seq<Option<Topic>>, k: nat, log: Log)
    requires k < |topics| && Alternatives(topics[k]) == []
    ensures Flatten(topics) == [] && FilterTopics(Flatten(topics), log) && !TopicsMatch(topics, log)
  {
    hide Scan;
    FilterTopicsMeaning(topics, log);
    assert Lists(topics)[k] == [];
    assert !Admits(Alternatives(topics[k]), log, k);
  }

  // ---------------------------------------------------------------- bloom filters

  function MaybeItem(hash: Hasher, x: Option<Bytes>): Option<Bloom> {
    if x.Some? then Some(Item(hash(x.value))) else None
  }

  function TopicBlooms(hash: Hasher, topic: Topic): (blooms: BloomFilter)
    ensures blooms != []
  {
    match topic
    case Value(x) => [MaybeItem(hash, x)]
    case Array(xs) =>
      if xs == [] then [None] else seq(|xs|, i requires 0 <= i < |xs| => MaybeItem(hash, xs[i]))
  }

  /** The pre-check for topics; without topics there is none. */
  function TopicsFilter(hash: Hasher, topics: Option<seq<Topic>>): (filters: seq<BloomFilter>)
    ensures |filters| == if topics.Some? then |topics.value| else 0
    ensures topics.Some? ==> forall i :: 0 <= i < |filters| ==> filters[i] == TopicBlooms(hash, topics.value[i])
  {
    match topics
    case None => []
    case Some(flat) => seq(|flat|, i requires 0 <= i < |flat| => TopicBlooms(hash, flat[i]))
  }

  function AddressFilter(hash: Hasher, address: Option<ValueOrArray<Bytes>>): BloomFilter {
    match address
    case None => []
    case Some(Value(x)) => [Some(Item(hash(x)))]
    case Some(Array(xs)) =>
      if xs == [] then [None] else seq(|xs|, i requires 0 <= i < |xs| => Some(Item(hash(xs[i]))))
  }

  ghost predicate MayHold(bloom: Bloom, part: Option<Bloom>) {
    part.Some? ==> Contains(bloom, part.value)
  }

  ghost predicate HoldsEach(bloom: Bloom, filter: BloomFilter) {
    filter != [] && forall j :: 0 <= j < |filter| ==> MayHold(bloom, filter[j])
  }

  ghost predicate MatchesTopics(bloom: Bloom, filters: seq<BloomFilter>) {
    filters == [] || exists i :: 0 <= i < |filters| && HoldsEach(bloom, filters[i])
  }

  ghost predicate MatchesAddress(bloom: Bloom, filter: BloomFilter) {
    filter == [] || exists j :: 0 <= j < |filter| && MayHold(bloom, filter[j])
  }

  /** Every non-null value of the entry is a topic of the log. */
  ghost predicate Mentioned(topic: Topic, log: Log) {
    match topic
    case Value(x) => x.Some? ==> x.value in log.topics
    case Array(xs) => forall k :: 0 <= k < |xs| && xs[k].Some? ==> xs[k].value in log.topics
  }

  /** An entry that leaves the verdict true mentions only topics of the log. */
  lemma {:induction false} JudgedTrue(topic: Topic, log: Log, out: bool)
    requires Judge(topic, log, out).out
    ensures Mentioned(topic, log)
  {
    if topic.Value? {
      if topic.value.Some? {
        assert log.topics[0] == topic.value.value;
      }
    } else if topic.values != [] {
      var shrunk := Shrink(topic.values);
      assert shrunk == topic.values[..|shrunk|];
      if shrunk != [] {
        PrefixFits(topic.values, log);
      }
    }
  }

  lemma {:induction false} AcceptedMentions(flat: seq<Topic>, log: Log, out: bool)
    requires Scan(flat, log, out) && flat != []
    ensures exists i :: 0 <= i < |flat| && Mentioned(flat[i], log)
    decreases |flat|
  {
    hide Judge;
    var verdict := Judge(flat[0], log, out);
    var rest := flat[1..];
    if verdict.Break? || rest == [] {
      JudgedTrue(flat[0], log, out);
    } else {
      AcceptedMentions(rest, log, verdict.out);
      var i :| 0 <= i < |rest| && Mentioned(rest[i], log);
      assert flat[i + 1] == rest[i];
    }
  }

  lemma {:induction false} MentionedHolds(hash: Hasher, bloom: Bloom, topic: Topic, log: Log)
    requires Mentioned(topic, log) && HoldsAll(hash, bloom, ItemsOf(log))
    ensures HoldsEach(bloom, TopicBlooms(hash, topic))
  {
    var filter := TopicBlooms(hash, topic);
    forall j | 0 <= j < |filter| ensures MayHold(bloom, filter[j]) {
      if filter[j].Some? {
        var x := if topic.Value? then topic.value.value else topic.values[j].value;
        assert x in log.topics;
        var k :| 0 <= k < |log.topics| && log.topics[k] == x;
        assert ItemsOf(log)[k + 1] == x;
      }
    }
  }

  lemma {:induction false} AddressHolds(hash: Hasher, bloom: Bloom, address: Option<ValueOrArray<Bytes>>, log: Log)
    requires FilterAddress(address, log) && HoldsAll(hash, bloom, ItemsOf(log))
    ensures MatchesAddress(bloom, AddressFilter(hash, address))
  {
    assert ItemsOf(log)[0] == log.address;
    if address.Some? {
      var filter := AddressFilter(hash, address);
      if address.value.Array? && address.value.values != [] {
        var xs := address.value.values;
        var j :| 0 <= j < |xs| && xs[j] == log.address;
        assert MayHold(bloom, filter[j]);
      } else {
        assert MayHold(bloom, filter[0]);
      }
    }
  }

  /** A block with a log that passes the filter is never skipped by the bloom pre-check. */
  lemma {:induction false} NoFalseNegatives(
    hash: Hasher, receipts: seq<seq<Log>>, r: nat, l: nat,
    address: Option<ValueOrArray<Bytes>>, flat: seq<Topic>, topics: Option<seq<Topic>>)
    requires r < |receipts| && l < |receipts[r]|
    requires topics == None || topics == Some(flat)
    requires FilterAddress(address, receipts[r][l]) && FilterTopics(flat, receipts[r][l])
    ensures MatchesAddress(BlockBloom(hash, receipts), AddressFilter(hash, address))
    ensures MatchesTopics(BlockBloom(hash, receipts), TopicsFilter(hash, topics))
  {
    hide BlockBloom, Scan, TopicBlooms, FilterAddress, AddressFilter;
    var bloom, log := BlockBloom(hash, receipts), receipts[r][l];
    ContainsItself(bloom);
    BlockBloomIsLeast(hash, bloom, receipts);
    assert HoldsLogs(hash, bloom, receipts[r]);
    assert HoldsAll(hash, bloom, ItemsOf(log));
    AddressHolds(hash, bloom, address, log);
    if topics.Some? && flat != [] {
      AcceptedMentions(flat, log, true);
      var i :| 0 <= i < |flat| && Mentioned(flat[i], log);
      MentionedHolds(hash, bloom, flat[i], log);
      assert HoldsEach(bloom, TopicsFilter(hash, topics)[i]);
    }
  }

  // ---------------------------------------------------------------- the operations as they run

  method MakeCartesian(lists: seq<seq<Option<Bytes>>>) returns (res: seq<Combination>)
    ensures res == Cartesian(lists)
  {
    res := [];
    if lists == [] {
      return;
    }
    var i := 0;
    while i < |lists[0]|
      invariant i <= |lists[0]| && res == ExtendOne([], lists[0][..i])
    {
      assert [] + [lists[0][i]] == [lists[0][i]];
      res, i := res + [[lists[0][i]]], i + 1;
    }
    assert lists[0][..i] == lists[0];
    var n := 1;
    assert lists[..1] == [lists[0]];
    while n < |lists|
      invariant 1 <= n <= |lists| && res == Cartesian(lists[..n])
    {
      res := ExtendAll(res, lists[n]);
      assert lists[..n + 1][..n] == lists[..n];
      n := n + 1;
    }
    assert lists[..n] == lists;
  }

  method ExtendAll(res: seq<Combination>, list: seq<Option<Bytes>>) returns (tmp: seq<Combination>)
    ensures tmp == Extend(res, list)
  {
    tmp := [];
    var r := 0;
    while r < |res|
      invariant r <= |res| && tmp == Extend(res[..r], list)
    {
      ghost var before := tmp;
      var e := 0;
      while e < |list|
        invariant e <= |list| && tmp == before + ExtendOne(res[r], list[..e])
      {
        tmp, e := tmp + [res[r] + [list[e]]], e + 1;
      }
      assert list[..e] == list;
      assert res[..r + 1][..r] == res[..r];
      r := r + 1;
    }
    assert res[..r] == res;
  }

  method RunFilterTopics(flat: seq<Topic>, log: Log) returns (out: bool)
    ensures out == FilterTopics(flat, log)
  {
    out := true;
    var i := 0;
    while i < |flat|
      invariant i <= |flat| && FilterTopics(flat, log) == Scan(flat[i..], log, out)
    {
      assert flat[i..][1..] == flat[i + 1..];
      var topic := flat[i];
      i := i + 1;
      match topic
      case Value(single) =>
        if single.Some? {
          if !([single.value] <= log.topics) {
            out := false;
          }
        }
      case Array(multi) =>
        if multi == [] {
          out := true;
          continue;
        }
        var shrunk := PopWildcards(multi);
        if |shrunk| > |log.topics| {
          out := false;
          break;
        }
        var replaced := RunReplace(log, shrunk);
        if replaced.Some? {
          out := false;
          if replaced.value <= log.topics {
            out := true;
            break;
          }
        }
    }
  }

  method PopWildcards(multi: Combination) returns (shrunk: Combination)
    ensures shrunk == Shrink(multi)
  {
    shrunk := multi;
    while shrunk != [] && shrunk[|shrunk| - 1].None?
      invariant Shrink(shrunk) == Shrink(multi)
    {
      shrunk := shrunk[..|shrunk| - 1];
    }
  }

  method RunReplace(log: Log, c: Combination) returns (r: Option<seq<Bytes>>)
    requires |c| <= |log.topics|
    ensures r == if c == [] then None else Some(Replace(log, c))
  {
    var out, k := [], 0;
    while k < |c|
      invariant k <= |c| && out == Replace(log, c)[..k]
    {
      out := out + [if c[k].Some? then c[k].value else log.topics[k]];
      k := k + 1;
    }
    assert out == Replace(log, c);
    return if out == [] then None else Some(out);
  }

  method RunMatchesTopics(bloom: Bloom, filters: seq<BloomFilter>) returns (yes: bool)
    ensures yes <==> MatchesTopics(bloom, filters)
  {
    if filters == [] {
      return true;
    }
    var i := 0;
    while i < |filters|
      invariant i <= |filters| && forall k :: 0 <= k < i ==> !HoldsEach(bloom, filters[k])
    {
      var isMatch, j := false, 0;
      while j < |filters[i]|
        invariant j <= |filters[i]| && (isMatch <==> j > 0)
        invariant forall k :: 0 <= k < j ==> MayHold(bloom, filters[i][k])
      {
        var part := filters[i][j];
        isMatch := true;
        if part.Some? {
          isMatch := ContainsBloom(bloom, part.value);
        }
        if !isMatch {
          break;
        }
        j := j + 1;
      }
      if isMatch {
        return true;
      }
      i := i + 1;
    }
    return false;
  }

  method RunMatchesAddress(bloom: Bloom, filter: BloomFilter) returns (yes: bool)
    ensures yes <==> MatchesAddress(bloom, filter)
  {
    if filter == [] {
      return true;
    }
    var j := 0;
    while j < |filter|
      invariant j <= |filter| && forall k :: 0 <= k < j ==> !MayHold(bloom, filter[k])
    {
      if filter[j].None? {
        return true;
      }
      var held := ContainsBloom(bloom, filter[j].value);
      if held {
        return true;
      }
      j := j + 1;
    }
    return false;
  }
}
