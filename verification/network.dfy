/** Network throughput: the byte counters of the selected interfaces, summed
    as `i32`, turned into kilobits per second by `((sum * 8) / secs) / 1024`
    with Rust's truncating `i32` division. */
module Network {
  import opened Outcomes
  import opened RustInt

  /** One network interface as the network probe lists it. */
  datatype Interface = Interface(name: string, received: U64, transmitted: U64)

  datatype Direction = Down | Up

  /** Which interfaces are summed: all of them, or those with a given name. */
  datatype Selector = AllInterfaces | Named(name: string)

  /** The configured interface name that selects every interface. */
  const TOTAL_SELECTOR: string := "total"

  function SelectorOf(iface: string): (sel: Selector)
    ensures sel.AllInterfaces? <==> iface == TOTAL_SELECTOR
    ensures sel.Named? ==> sel.name == iface
  {
    if iface == TOTAL_SELECTOR then AllInterfaces else Named(iface)
  }

  predicate Selects(sel: Selector, ifc: Interface) {
    sel.AllInterfaces? || ifc.name == sel.name
  }

  /** The interface's byte counter for `dir`, cast with `as i32`. */
  function Counter(ifc: Interface, dir: Direction): I32 {
    U64AsI32(if dir == Down then ifc.received else ifc.transmitted)
  }

  /** The counters pushed into the vector that is then summed, in list order. */
  function Counters(nets: seq<Interface>, dir: Direction, sel: Selector): (r: seq<I32>)
    ensures |r| <= |nets|
    ensures (forall k :: 0 <= k < |nets| ==> !Selects(sel, nets[k])) ==> r == []
    ensures (forall k :: 0 <= k < |nets| ==> Selects(sel, nets[k])) ==>
      |r| == |nets| && forall k :: 0 <= k < |nets| ==> r[k] == Counter(nets[k], dir)
  {
    if |nets| == 0 then []
    else
      var init, last := nets[..|nets| - 1], nets[|nets| - 1];
      var rest := Counters(init, dir, sel);
      if Selects(sel, last) then rest + [Counter(last, dir)] else rest
  }

  /** The mathematical sum, added up from the front. */
  function Sum(xs: seq<int>): int {
    if |xs| == 0 then 0 else xs[0] + Sum(xs[1..])
  }

  lemma {:induction false} SumSnoc(xs: seq<int>, x: int)
    ensures Sum(xs + [x]) == Sum(xs) + x
  {
    if |xs| == 0 {
      assert [] + [x] == [x];
    } else {
      assert (xs + [x])[1..] == xs[1..] + [x];
      SumSnoc(xs[1..], x);
    }
  }

  /** Every running total of the left-to-right addition fits in `i32`. */
  predicate PrefixSumsFit(xs: seq<int>) {
    forall k :: 0 < k <= |xs| ==> IsI32(Sum(xs[..k]))
  }

  /** `iter().sum()` on `i32`: adds from the left, panicking on the first
      running total that overflows. */
  function CheckedSum(xs: seq<I32>): (r: Outcome<I32>)
    ensures r.Ok? <==> PrefixSumsFit(xs)
    ensures r.Ok? ==> r.value == Sum(xs)
    ensures r.Panic? ==> r.cause == ArithmeticOverflow
  {
    if |xs| == 0 then Ok(0)
    else
      var init, x := xs[..|xs| - 1], xs[|xs| - 1];
      assert xs == init + [x];
      SumSnoc(init, x);
      assert forall k :: 0 < k < |xs| ==> xs[..k] == init[..k];
      assert xs[..|xs|] == xs;
      assert PrefixSumsFit(xs) <==> PrefixSumsFit(init) && IsI32(Sum(xs));
      var acc :- CheckedSum(init);
      AddI32(acc, x)
  }

  /** The rate is defined exactly when the running sums fit, the sum times 8
      fits, and the interval is not zero. */
  predicate RateDefined(xs: seq<int>, secs: int) {
    PrefixSumsFit(xs) && IsI32(Sum(xs) * 8) && secs != 0
  }

  /** `((total * 8) / secs) / 1024`, each step on `i32`. */
  function Kbps(total: I32, secs: NonNegI32): (r: Outcome<I32>)
    ensures r.Ok? <==> IsI32(total * 8) && secs != 0
    ensures r.Ok? ==> r.value == TruncDiv(TruncDiv(total * 8, secs), 1024)
    ensures !IsI32(total * 8) ==> r == Panic(ArithmeticOverflow)
    ensures IsI32(total * 8) && secs == 0 ==> r == Panic(DivideByZero)
  {
    var bits :- MulI32(total, 8);
    var perSec :- DivI32(bits, secs);
    DivI32(perSec, 1024)
  }

  /** `get_tot_ntwk_dwn/up` (for `AllInterfaces`) and `get_iface_ntwk_dwn/up`
      (for `Named`): the rate over the selected counters. Summing overflow is
      reported before the multiplication, which is reported before a zero
      interval. */
  function Rate(nets: seq<Interface>, secs: NonNegI32, dir: Direction, sel: Selector): (r: Outcome<I32>)
    ensures r.Ok? <==> RateDefined(Counters(nets, dir, sel), secs)
    ensures r.Ok? ==>
      r.value == TruncDiv(TruncDiv(Sum(Counters(nets, dir, sel)) * 8, secs), 1024)
    ensures secs == 0 && RateDefined(Counters(nets, dir, sel), 1) ==> r == Panic(DivideByZero)
    ensures !RateDefined(Counters(nets, dir, sel), 1) ==> r == Panic(ArithmeticOverflow)
  {
    var total :- CheckedSum(Counters(nets, dir, sel));
    Kbps(total, secs)
  }

  /** Down and up rates for the configured interface name; the name "total"
      sums every interface. The downlink is computed first. */
  function NetworkRates(nets: seq<Interface>, secs: NonNegI32, iface: string): (r: Outcome<(I32, I32)>)
    ensures r.Ok? <==>
      RateDefined(Counters(nets, Down, SelectorOf(iface)), secs) &&
      RateDefined(Counters(nets, Up, SelectorOf(iface)), secs)
    ensures r.Ok? ==>
      r.value.0 == Rate(nets, secs, Down, SelectorOf(iface)).value &&
      r.value.1 == Rate(nets, secs, Up, SelectorOf(iface)).value
  {
    var sel := SelectorOf(iface);
    var down :- Rate(nets, secs, Down, sel);
    var up :- Rate(nets, secs, Up, sel);
    Ok((down, up))
  }

  // ---------------------------------------------------------------------
  // Properties of the rate

  lemma {:induction false} SumNonNegative(xs: seq<int>)
    requires forall k :: 0 <= k < |xs| ==> xs[k] >= 0
    ensures Sum(xs) >= 0
    ensures forall k :: 0 <= k <= |xs| ==> Sum(xs[..k]) <= Sum(xs)
  {
    if |xs| > 0 {
      SumNonNegative(xs[1..]);
      forall k | 0 < k <= |xs|
        ensures Sum(xs[..k]) <= Sum(xs)
      {
        assert xs[..k][1..] == xs[1..][..k - 1];
      }
    }
  }

  /** With non-negative counters (no counter wrapped by the `as i32` cast)
      the running sums never overflow before the final one does. */
  lemma NonNegativeSumFits(xs: seq<int>)
    requires forall k :: 0 <= k < |xs| ==> xs[k] >= 0
    ensures PrefixSumsFit(xs) <==> Sum(xs) <= I32_MAX
  {
    SumNonNegative(xs);
    forall k | 0 < k <= |xs|
      ensures Sum(xs[..k]) >= 0
    {
      SumNonNegative(xs[..k]);
    }
    assert xs[..|xs|] == xs;
  }

  /** A name that matches no interface gives a rate of 0 (or a division by
      zero when the interval is 0). */
  lemma NoMatchIsZero(nets: seq<Interface>, secs: NonNegI32, dir: Direction, name: string)
    requires forall k :: 0 <= k < |nets| ==> nets[k].name != name
    ensures Rate(nets, secs, dir, Named(name)) == if secs == 0 then Panic(DivideByZero) else Ok(0)
  {
    assert Counters(nets, dir, Named(name)) == [];
    assert PrefixSumsFit([]);
  }

  /** Interface names are unique in the probe's list, so a named selector
      sums exactly one counter and the summation itself cannot overflow. */
  lemma {:induction false} UniqueNameSelectsOne(nets: seq<Interface>, dir: Direction, i: nat)
    requires i < |nets|
    requires forall k :: 0 <= k < |nets| && k != i ==> nets[k].name != nets[i].name
    ensures Counters(nets, dir, Named(nets[i].name)) == [Counter(nets[i], dir)]
  {
    var sel := Named(nets[i].name);
    var n := |nets| - 1;
    var init := nets[..n];
    if i == n {
      assert forall k :: 0 <= k < |init| ==> !Selects(sel, init[k]);
      assert Counters(init, dir, sel) == [];
    } else {
      UniqueNameSelectsOne(init, dir, i);
      assert !Selects(sel, nets[n]);
    }
  }

  /** With unique interface names, the rate of a named interface is the
      rate of that interface alone: its own counter converted to kbit/s, and
      what `"total"` would report were it the only interface. */
  lemma NamedRateIsOneInterface(nets: seq<Interface>, secs: NonNegI32, dir: Direction, i: nat)
    requires i < |nets|
    requires forall k :: 0 <= k < |nets| && k != i ==> nets[k].name != nets[i].name
    ensures Rate(nets, secs, dir, Named(nets[i].name)) == Kbps(Counter(nets[i], dir), secs)
    ensures Rate(nets, secs, dir, Named(nets[i].name)) == Rate([nets[i]], secs, dir, AllInterfaces)
  {
    UniqueNameSelectsOne(nets, dir, i);
    var one := [Counter(nets[i], dir)];
    assert Counters([nets[i]], dir, AllInterfaces) == one by {
      assert [nets[i]][..0] == [];
    }
    assert one[..0] == [] && one[..1] == one;
    assert Sum(one) == one[0];
    assert PrefixSumsFit(one);
  }

  /** Non-negative counters give a non-negative rate. */
  lemma RateNonNegative(nets: seq<Interface>, secs: NonNegI32, dir: Direction, sel: Selector)
    requires forall k :: 0 <= k < |Counters(nets, dir, sel)| ==> Counters(nets, dir, sel)[k] >= 0
    requires Rate(nets, secs, dir, sel).Ok?
    ensures Rate(nets, secs, dir, sel).value >= 0
  {
    SumNonNegative(Counters(nets, dir, sel));
  }

  /** Two interfaces each reporting 1024 bytes in one second: 16 kbit/s. */
  lemma TotalExample()
    ensures Rate([Interface("eth0", 1024, 0), Interface("wlan0", 1024, 0)], 1, Down, AllInterfaces) == Ok(16)
  {
    var nets := [Interface("eth0", 1024, 0), Interface("wlan0", 1024, 0)];
    assert nets[..1][..0] == [];
    assert Counters(nets, Down, AllInterfaces) == [1024, 1024];
    assert Sum([1024, 1024]) == 2048;
    assert PrefixSumsFit([1024, 1024]) by {
      assert [1024, 1024][..1] == [1024];
      assert [1024, 1024][..2] == [1024, 1024];
    }
  }

  /** 2^28 bytes (256 MiB) in one interval already overflows `sum * 8`. */
  lemma OverflowExample(secs: NonNegI32)
    ensures Rate([Interface("eth0", 0x1000_0000, 0)], secs, Down, AllInterfaces) == Panic(ArithmeticOverflow)
  {
    var nets := [Interface("eth0", 0x1000_0000, 0)];
    assert nets[..0] == [];
    assert Counters(nets, Down, AllInterfaces) == [0x1000_0000];
    assert Sum([0x1000_0000]) == 0x1000_0000;
  }

  /** A counter wrapped negative by the cast is divided toward zero:
      -8000 / 1024 gives -7, where Euclidean division would give -8. */
  lemma TruncationExample()
    ensures Kbps(-1000, 1) == Ok(-7)
  {
  }
}
