/**
 Smoke and fee accounting: intrinsic smoke, the block's smoke pool, one message's state
 transition and the processing of a whole block (core/state_transition.go, core/smokepool.go,
 core/state_processor.go), and the pool's validation of a transaction (core/tx_pool.go).

 The virtual machine is a parameter.  Smoke is 64 bits wide in the program; the model uses
 unbounded numbers and shows that no sum leaves that range.
 */
module SmokeAccounting {
  import opened Basics
  import Sums

  const MAX64: nat := TWO64 - 1
  const TX_SMOKE: nat := 20000
  const TX_SMOKE_CONTRACT_CREATION: nat := 50000
  const TX_DATA_ZERO_SMOKE: nat := 4
  const TX_DATA_NON_ZERO_SMOKE_FRONTIER: nat := 68
  const TX_DATA_NON_ZERO_SMOKE_EIP2028: nat := 16
  const TX_MAX_SIZE: nat := 4 * 32 * 1024

  type Byte = b: nat | b < 256

  // ---------- intrinsic smoke ----------

  datatype Rules = Rules(homestead: bool, istanbul: bool)

  function BaseSmoke(creation: bool, rules: Rules): nat {
    if creation && rules.homestead then TX_SMOKE_CONTRACT_CREATION else TX_SMOKE
  }

  function NonZeroPrice(rules: Rules): nat {
    if rules.istanbul then TX_DATA_NON_ZERO_SMOKE_EIP2028 else TX_DATA_NON_ZERO_SMOKE_FRONTIER
  }

  function DataSmoke(data: seq<Byte>, rules: Rules): nat {
    if data == [] then 0
    else DataSmoke(data[..|data| - 1], rules) + if data[|data| - 1] != 0 then NonZeroPrice(rules) else TX_DATA_ZERO_SMOKE
  }

  /** The price of a transaction before anything is executed, byte by byte and without overflow. */
  function Intrinsic(data: seq<Byte>, creation: bool, rules: Rules): nat {
    BaseSmoke(creation, rules) + DataSmoke(data, rules)
  }

  function NonZeros(data: seq<Byte>): (n: nat)
    ensures n <= |data|
  {
    if data == [] then 0 else NonZeros(data[..|data| - 1]) + if data[|data| - 1] != 0 then 1 else 0
  }

  lemma {:induction false} DataCounted(data: seq<Byte>, rules: Rules)
    ensures DataSmoke(data, rules) == NonZeros(data) * NonZeroPrice(rules) + (|data| - NonZeros(data)) * TX_DATA_ZERO_SMOKE
  {
    if data != [] {
      DataCounted(data[..|data| - 1], rules);
    }
  }

  /** The price in numbers: 20000, or 50000 for a contract since homestead; 4 for a zero byte, and 68, or
      16 since istanbul, for any other. */
  ghost function Priced(bytes: nat, zeros: nat, creation: bool, rules: Rules): int {
    (if creation && rules.homestead then 50000 else 20000) + 4 * zeros
      + (if rules.istanbul then 16 else 68) * (bytes - zeros)
  }

  lemma {:induction false} ZerosCounted(data: seq<Byte>)
    ensures |data| - NonZeros(data) == multiset(data)[0]
  {
    if data != [] {
      var front := data[..|data| - 1];
      assert data == front + [data[|data| - 1]];
      ZerosCounted(front);
    }
  }

  lemma IntrinsicPriced(data: seq<Byte>, creation: bool, rules: Rules)
    ensures Intrinsic(data, creation, rules) == Priced(|data|, multiset(data)[0], creation, rules)
  {
    ZerosCounted(data);
    DataCounted(data, rules);
  }

  lemma Times(a: nat, b: nat, c: nat)
    requires a <= b
    ensures a * c <= b * c
  {
    assert (b - a) * c >= 0;
  }

  /** The overflow test by division is exact. */
  lemma DivisionTest(room: nat, price: nat, count: nat)
    requires price > 0
    ensures room / price < count <==> count * price > room
  {
    var q := room / price;
    assert room == q * price + room % price;
    if q < count {
      Times(q + 1, count, price);
      assert (q + 1) * price == q * price + price;
    } else {
      Times(count, q, price);
    }
  }

  /** Counts the bytes and adds up their price, failing exactly when 64 bits do not hold it. */
  method IntrinsicSmoke(data: seq<Byte>, creation: bool, rules: Rules) returns (smoke: nat, overflow: bool)
    ensures overflow <==> Intrinsic(data, creation, rules) > MAX64
    ensures !overflow ==> smoke == Intrinsic(data, creation, rules)
    ensures !overflow ==> smoke == Priced(|data|, multiset(data)[0], creation, rules)
  {
    IntrinsicPriced(data, creation, rules);
    smoke, overflow := BaseSmoke(creation, rules), false;
    if |data| > 0 {
      var nz := 0;
      for i := 0 to |data|
        invariant nz == NonZeros(data[..i])
      {
        assert data[..i + 1][..i] == data[..i];
        if data[i] != 0 {
          nz := nz + 1;
        }
      }
      assert data[..|data|] == data;
      DataCounted(data, rules);
      var price := NonZeroPrice(rules);
      DivisionTest(MAX64 - smoke, price, nz);
      if (MAX64 - smoke) / price < nz {
        return 0, true;
      }
      smoke := smoke + nz * price;
      var z := |data| - nz;
      DivisionTest(MAX64 - smoke, TX_DATA_ZERO_SMOKE, z);
      if (MAX64 - smoke) / TX_DATA_ZERO_SMOKE < z {
        return 0, true;
      }
      smoke := smoke + z * TX_DATA_ZERO_SMOKE;
    }
  }

  // ---------- accounts ----------

  datatype World = World(balance: map<Addr, int>, nonce: map<Addr, nat>, refund: nat)

  function Balance(w: World, a: Addr): int {
    if a in w.balance then w.balance[a] else 0
  }

  function Nonce(w: World, a: Addr): nat {
    if a in w.nonce then w.nonce[a] else 0
  }

  function Credit(w: World, a: Addr, amount: int): World {
    w.(balance := w.balance[a := Balance(w, a) + amount])
  }

  function WithNonce(w: World, a: Addr, n: nat): World {
    w.(nonce := w.nonce[a := n])
  }

  ghost function BalanceOf(w: World): Addr -> int {
    (a: Addr) => Balance(w, a)
  }

  /** All the money there is. */
  ghost function Total(w: World): int {
    Sums.Sum(w.balance.Keys, BalanceOf(w))
  }

  lemma CreditTotal(w: World, a: Addr, amount: int)
    ensures Total(Credit(w, a, amount)) == Total(w) + amount
  {
    var v := Credit(w, a, amount);
    var others := w.balance.Keys - {a};
    assert v.balance.Keys - {a} == others;
    Sums.SumRemove(v.balance.Keys, BalanceOf(v), a);
    Sums.SumSame(others, BalanceOf(w), BalanceOf(v));
    if a in w.balance {
      Sums.SumRemove(w.balance.Keys, BalanceOf(w), a);
    } else {
      assert others == w.balance.Keys;
    }
  }

  lemma NonceTotal(w: World, a: Addr, n: nat)
    ensures Total(WithNonce(w, a, n)) == Total(w)
  {
    Sums.SumSame(w.balance.Keys, BalanceOf(w), BalanceOf(WithNonce(w, a, n)));
  }

  // ---------- messages ----------

  datatype Msg = Msg(from: Addr, to: Option<Addr>, nonce: nat, price: nat, smoke: nat, value: int, data: seq<Byte>,
                     checkNonce: bool)

  datatype TxError =
    | NonceTooHigh
    | NonceTooLow
    | InsufficientFunds
    | SmokeLimitReached
    | SmokeOverflow
    | IntrinsicTooHigh
    | InsufficientForTransfer

  function Fee(m: Msg): int {
    m.smoke * m.price
  }

  function IntrinsicOf(m: Msg, rules: Rules): nat {
    Intrinsic(m.data, m.to.None?, rules)
  }

  /** Why a message is not valid in a state, in the order of the checks. */
  function Check(w: World, pool: nat, m: Msg, rules: Rules): Option<TxError> {
    if m.checkNonce && Nonce(w, m.from) < m.nonce then Some(NonceTooHigh)
    else if m.checkNonce && Nonce(w, m.from) > m.nonce then Some(NonceTooLow)
    else if Balance(w, m.from) < Fee(m) then Some(InsufficientFunds)
    else if pool < m.smoke then Some(SmokeLimitReached)
    else if IntrinsicOf(m, rules) > MAX64 then Some(SmokeOverflow)
    else if m.smoke < IntrinsicOf(m, rules) then Some(IntrinsicTooHigh)
    else if m.value > 0 && Balance(w, m.from) - Fee(m) < m.value then Some(InsufficientForTransfer)
    else None
  }

  /** A message is valid exactly if nonce, balance, room in the block and smoke all fit; and the error
      names a condition that fails. */
  lemma CheckMeans(w: World, pool: nat, m: Msg, rules: Rules)
    ensures Check(w, pool, m, rules).None? <==>
      && (m.checkNonce ==> Nonce(w, m.from) == m.nonce)
      && m.smoke * m.price <= Balance(w, m.from) && (m.value > 0 ==> m.smoke * m.price + m.value <= Balance(w, m.from))
      && IntrinsicOf(m, rules) <= m.smoke <= pool && IntrinsicOf(m, rules) < TWO64
    ensures match Check(w, pool, m, rules)
      case None => true
      case Some(NonceTooHigh) => m.nonce > Nonce(w, m.from)
      case Some(NonceTooLow) => m.nonce < Nonce(w, m.from)
      case Some(InsufficientFunds) => m.smoke * m.price > Balance(w, m.from)
      case Some(SmokeLimitReached) => m.smoke > pool
      case Some(SmokeOverflow) => IntrinsicOf(m, rules) >= TWO64
      case Some(IntrinsicTooHigh) => IntrinsicOf(m, rules) > m.smoke
      case Some(InsufficientForTransfer) => m.smoke * m.price + m.value > Balance(w, m.from)
  {
    hide IntrinsicOf;
  }

  /** What the virtual machine leaves behind. */
  datatype VmResult = VmResult(world: World, left: nat, failed: bool)

  type Vm = (World, Msg, nat) -> VmResult

  /** It gives back no more smoke than it got and neither makes nor destroys money. */
  ghost predicate Conserves(vm: Vm) {
    forall w, m, smoke :: vm(w, m, smoke).left <= smoke && Total(vm(w, m, smoke).world) == Total(w)
  }

  /** The state the virtual machine starts from: smoke is paid for, and the nonce of a call is used
      up; a creation uses it up in the machine. */
  function Entered(w: World, m: Msg): World {
    var paid := Credit(w, m.from, -Fee(m));
    if m.to.None? then paid else WithNonce(paid, m.from, Nonce(paid, m.from) + 1)
  }

  /** For the machine the sender has paid for all the smoke of the message, and the nonce of a call is
      used up; nothing else has changed. */
  lemma EnteredMeans(w: World, m: Msg, a: Addr)
    ensures Balance(Entered(w, m), a) == Balance(w, a) - if a == m.from then m.smoke * m.price else 0
    ensures Nonce(Entered(w, m), a) == Nonce(w, a) + if a == m.from && m.to.Some? then 1 else 0
    ensures Entered(w, m).refund == w.refund
  {
  }

  function Execution(w: World, m: Msg, rules: Rules, vm: Vm): VmResult
    requires m.smoke >= IntrinsicOf(m, rules)
  {
    vm(Entered(w, m), m, m.smoke - IntrinsicOf(m, rules))
  }

  /** Smoke left at the end: what the machine left and a refund of at most half of what was used. */
  function Unused(m: Msg, r: VmResult): (s: nat)
    requires r.left <= m.smoke
    ensures r.left <= s <= m.smoke
  {
    var cap := (m.smoke - r.left) / 2;
    r.left + if cap > r.world.refund then r.world.refund else cap
  }

  function Used(m: Msg, r: VmResult): nat
    requires r.left <= m.smoke
  {
    m.smoke - Unused(m, r)
  }

  /** A refund of what the machine granted, but of no more than half of what was spent, and of as much as
      possible. */
  predicate Refunds(smoke: nat, left: nat, granted: nat, used: int) {
    var spent := smoke - left;
    var refund := spent - used;
    && 0 <= refund <= granted && 2 * refund <= spent
    && (refund == granted || 2 * (refund + 1) > spent)
  }

  lemma UsedRefunds(m: Msg, r: VmResult)
    requires r.left <= m.smoke
    ensures Refunds(m.smoke, r.left, r.world.refund, Used(m, r))
  {
  }

  /** What is left of the price goes to the sender and the price of what was used to the miner; nothing
      else changes hands. */
  predicate Pays(before: World, after: World, m: Msg, used: nat, coinbase: Addr, a: Addr) {
    && Nonce(after, a) == Nonce(before, a)
    && Balance(after, a) == Balance(before, a)
         + (if a == m.from then (m.smoke - used) * m.price else 0) + if a == coinbase then used * m.price else 0
  }

  lemma SettlePays(m: Msg, r: VmResult, coinbase: Addr)
    requires r.left <= m.smoke
    ensures forall a :: Pays(r.world, Settle(m, r, coinbase), m, Used(m, r), coinbase, a)
  {
    hide Unused;
  }

  /** The state after the sender got unused smoke back and the miner the price of the rest. */
  function Settle(m: Msg, r: VmResult, coinbase: Addr): World
    requires r.left <= m.smoke
  {
    Credit(Credit(r.world, m.from, Unused(m, r) * m.price), coinbase, Used(m, r) * m.price)
  }

  /** A valid message neither makes nor destroys money and uses at least half its intrinsic smoke. */
  lemma MessageConserves(w: World, m: Msg, rules: Rules, vm: Vm, coinbase: Addr)
    requires Conserves(vm) && m.smoke >= IntrinsicOf(m, rules)
    ensures var r := Execution(w, m, rules, vm);
      && r.left <= m.smoke - IntrinsicOf(m, rules)
      && Total(Settle(m, r, coinbase)) == Total(w)
      && 2 * Used(m, r) >= IntrinsicOf(m, rules)
  {
    hide Total, IntrinsicOf;
    var paid := Credit(w, m.from, -Fee(m));
    CreditTotal(w, m.from, -Fee(m));
    NonceTotal(paid, m.from, Nonce(paid, m.from) + 1);
    var r := Execution(w, m, rules, vm);
    assert r.left <= m.smoke - IntrinsicOf(m, rules);
    var back := Credit(r.world, m.from, Unused(m, r) * m.price);
    CreditTotal(r.world, m.from, Unused(m, r) * m.price);
    CreditTotal(back, coinbase, Used(m, r) * m.price);
    assert Unused(m, r) * m.price + Used(m, r) * m.price == Fee(m);
  }

  // ---------- the smoke pool and one state transition ----------

  class SmokePool {
    var left: nat

    constructor ()
      ensures left == 0
    {
      left := 0;
    }

    /** Panics, and changes nothing, if the sum does not fit into 64 bits. */
    method AddSmoke(amount: nat) returns (panics: bool)
      modifies this
      ensures panics <==> old(left) + amount > MAX64
      ensures left == old(left) + if panics then 0 else amount
    {
      if left > MAX64 - amount {
        return true;
      }
      left := left + amount;
      panics := false;
    }

    method SubSmoke(amount: nat) returns (ok: bool)
      modifies this
      ensures ok <==> amount <= old(left)
      ensures left == old(left) - if ok then amount else 0
    {
      if left < amount {
        return false;
      }
      left := left - amount;
      ok := true;
    }
  }

  class StateTransition {
    const gp: SmokePool
    const msg: Msg
    const rules: Rules
    const coinbase: Addr
    const vm: Vm
    var smoke: nat
    var initialSmoke: nat
    var world: World

    constructor (gp: SmokePool, msg: Msg, rules: Rules, coinbase: Addr, vm: Vm, world: World)
      ensures this.gp == gp && this.msg == msg && this.rules == rules && this.coinbase == coinbase && this.vm == vm
      ensures this.world == world
      ensures smoke == 0
    {
      this.gp, this.msg, this.rules, this.coinbase, this.vm, this.world := gp, msg, rules, coinbase, vm, world;
      smoke, initialSmoke := 0, 0;
    }

    /** Checks the nonce and buys the message's smoke. */
    method PreCheck() returns (error: Option<TxError>)
      requires smoke == 0
      modifies this, gp
      ensures error.Some? ==> Check(old(world), old(gp.left), msg, rules) == error && gp.left == old(gp.left)
      ensures error.None? ==>
        smoke == msg.smoke && initialSmoke == msg.smoke && world == Credit(old(world), msg.from, -Fee(msg))
      ensures error.None? ==> gp.left == old(gp.left) - msg.smoke && Balance(old(world), msg.from) >= Fee(msg)
      ensures error.None? ==> Balance(world, msg.from) == Balance(old(world), msg.from) - Fee(msg)
      ensures error.None? ==> msg.checkNonce ==> Nonce(old(world), msg.from) == msg.nonce
    {
      if msg.checkNonce {
        var stateNonce := Nonce(world, msg.from);
        if stateNonce < msg.nonce {
          return Some(NonceTooHigh);
        } else if stateNonce > msg.nonce {
          return Some(NonceTooLow);
        }
      }
      if Balance(world, msg.from) < Fee(msg) {
        return Some(InsufficientFunds);
      }
      var ok := gp.SubSmoke(msg.smoke);
      if !ok {
        return Some(SmokeLimitReached);
      }
      smoke := smoke + msg.smoke;
      initialSmoke := msg.smoke;
      world := Credit(world, msg.from, -Fee(msg));
      error := None;
    }

    /** Gives unused smoke, with the refund, back to the sender and to the pool. */
    method RefundSmoke(ghost r: VmResult) returns (panics: bool)
      requires initialSmoke == msg.smoke && r.left == smoke <= msg.smoke && r.world == world
      modifies this, gp
      ensures smoke == Unused(msg, r) && initialSmoke == msg.smoke
      ensures Refunds(msg.smoke, r.left, r.world.refund, msg.smoke - smoke)
      ensures world == Credit(r.world, msg.from, Unused(msg, r) * msg.price)
      ensures panics <==> old(gp.left) + Unused(msg, r) > MAX64
      ensures !panics ==> gp.left == old(gp.left) + Unused(msg, r)
    {
      var refund := (initialSmoke - smoke) / 2;
      if refund > world.refund {
        refund := world.refund;
      }
      smoke := smoke + refund;
      world := Credit(world, msg.from, smoke * msg.price);
      panics := gp.AddSmoke(smoke);
    }

    /** Applies the message: an error exactly when it is not valid, otherwise the settled state.  The
        pool never overflows. */
    method TransitionDb() returns (error: Option<TxError>, used: nat, failed: bool, panics: bool)
      requires smoke == 0 && gp.left <= MAX64 && Conserves(vm)
      modifies this, gp
      ensures error == Check(old(world), old(gp.left), msg, rules) && !panics && gp.left <= old(gp.left)
      ensures error.None? ==>
        msg.smoke >= IntrinsicOf(msg, rules) && Execution(old(world), msg, rules, vm).left <= msg.smoke
      ensures error.None? ==>
        var r := Execution(old(world), msg, rules, vm);
        && used == Used(msg, r) && failed == r.failed && world == Settle(msg, r, coinbase)
        && gp.left + used == old(gp.left)
      ensures error.None? ==>
        var r := Execution(old(world), msg, rules, vm);
        && Refunds(msg.smoke, r.left, r.world.refund, used)
        && forall a :: Pays(r.world, world, msg, used, coinbase, a)
    {
      hide Intrinsic, Total, Fee, Unused, Credit, WithNonce, Nonce, Refunds, Pays;
      used, failed, panics := 0, false, false;
      error := PreCheck();
      if error.Some? {
        return;
      }
      var creation := msg.to.None?;
      var intrinsic, overflow := IntrinsicSmoke(msg.data, creation, rules);
      if overflow {
        return Some(SmokeOverflow), 0, false, false;
      }
      if smoke < intrinsic {
        return Some(IntrinsicTooHigh), 0, false, false;
      }
      smoke := smoke - intrinsic;
      if msg.value > 0 && Balance(world, msg.from) < msg.value {
        return Some(InsufficientForTransfer), 0, false, false;
      }
      if !creation {
        world := WithNonce(world, msg.from, Nonce(world, msg.from) + 1);
      }
      var r := vm(world, msg, smoke);
      world, smoke, failed := r.world, r.left, r.failed;
      panics := RefundSmoke(r);
      used := initialSmoke - smoke;
      world := Credit(world, coinbase, used * msg.price);
      UsedRefunds(msg, r);
      SettlePays(msg, r, coinbase);
    }
  }

  // ---------- whole blocks ----------

  /** One message on a state and a pool: the new state and pool, or nothing if it is not valid. */
  ghost function Apply(w: World, pool: nat, m: Msg, rules: Rules, vm: Vm, coinbase: Addr): Option<(World, nat)>
    requires Conserves(vm)
  {
    if Check(w, pool, m, rules).Some? then
      None
    else
      var r := Execution(w, m, rules, vm);
      Some((Settle(m, r, coinbase), pool - Used(m, r)))
  }

  /** The first `n` messages of a block, one after the other. */
  ghost function ApplyFirst(w: World, pool: nat, msgs: seq<Msg>, n: nat, rules: Rules, vm: Vm,
                            coinbase: Addr): Option<(World, nat)>
    requires Conserves(vm) && n <= |msgs|
  {
    if n == 0 then
      Some((w, pool))
    else
      match ApplyFirst(w, pool, msgs, n - 1, rules, vm, coinbase)
      case None => None
      case Some((v, left)) => Apply(v, left, msgs[n - 1], rules, vm, coinbase)
  }

  lemma ApplyConserves(w: World, pool: nat, m: Msg, rules: Rules, vm: Vm, coinbase: Addr)
    requires Conserves(vm) && Apply(w, pool, m, rules, vm, coinbase).Some?
    ensures var after := Apply(w, pool, m, rules, vm, coinbase).value;
      Total(after.0) == Total(w) && after.1 <= pool && 2 * (pool - after.1) >= IntrinsicOf(m, rules)
  {
    MessageConserves(w, m, rules, vm, coinbase);
  }

  /** A receipt: smoke used so far in the block, and by this transaction. */
  datatype Receipt = Receipt(cumulative: nat, used: nat, failed: bool)

  /** The smoke used by the first `n` transactions. */
  function SoFar(receipts: seq<Receipt>, n: nat): nat
    requires n <= |receipts|
  {
    if n > 0 then receipts[n - 1].cumulative else 0
  }

  /** The receipts add up, and every transaction used at least half its intrinsic smoke. */
  ghost predicate AddUp(receipts: seq<Receipt>, msgs: seq<Msg>, rules: Rules) {
    && |receipts| <= |msgs|
    && (forall i: nat :: i < |receipts| ==> receipts[i].cumulative == receipts[i].used + SoFar(receipts, i))
    && (forall i :: 0 <= i < |receipts| ==> 2 * receipts[i].used >= IntrinsicOf(msgs[i], rules))
  }

  lemma NoneAddUp(msgs: seq<Msg>, rules: Rules)
    ensures AddUp([], msgs, rules)
  {
  }

  lemma AddUpMore(receipts: seq<Receipt>, r: Receipt, msgs: seq<Msg>, rules: Rules)
    requires AddUp(receipts, msgs, rules) && |receipts| < |msgs| && 2 * r.used >= IntrinsicOf(msgs[|receipts|], rules)
    requires r.cumulative == r.used + SoFar(receipts, |receipts|)
    ensures AddUp(receipts + [r], msgs, rules)
  {
    hide IntrinsicOf;
    var all := receipts + [r];
    forall i: nat | i < |all| ensures all[i].cumulative == all[i].used + SoFar(all, i) {
      assert SoFar(all, i) == SoFar(receipts, i);
      assert i < |receipts| ==> all[i] == receipts[i];
    }
  }

  /** The first `n` messages are valid; smoke used so far and pool make up the limit, and no money is
      made or lost. */
  ghost predicate Reached(w: World, limit: nat, msgs: seq<Msg>, n: nat, used: nat, rules: Rules, vm: Vm, coinbase: Addr)
    requires Conserves(vm) && n <= |msgs|
  {
    var s := ApplyFirst(w, limit, msgs, n, rules, vm, coinbase);
    s.Some? && s.value.1 + used == limit && Total(s.value.0) == Total(w)
  }

  /** A receipt says whether the machine failed on the message, in the state it was executed in, and what
      was used after the refund. */
  ghost predicate Tells(receipt: Receipt, w: World, m: Msg, rules: Rules, vm: Vm) {
    m.smoke >= IntrinsicOf(m, rules) &&
    var r := Execution(w, m, rules, vm);
    receipt.failed == r.failed && Refunds(m.smoke, r.left, r.world.refund, receipt.used)
  }

  /** The same for message `n`, after the messages before it. */
  ghost predicate TellsAfter(receipt: Receipt, w: World, limit: nat, msgs: seq<Msg>, n: nat, rules: Rules, vm: Vm,
                             coinbase: Addr)
    requires Conserves(vm) && n < |msgs|
  {
    var s := ApplyFirst(w, limit, msgs, n, rules, vm, coinbase);
    s.Some? && Tells(receipt, s.value.0, msgs[n], rules, vm)
  }

  /** A message that is not valid where the messages before it have led. */
  ghost predicate StopsAt(s: Option<(World, nat)>, m: Msg, rules: Rules) {
    s.Some? && Check(s.value.0, s.value.1, m, rules).Some?
  }

  class StateProcessor {
    var world: World
    var usedSmoke: nat

    constructor (world: World)
      ensures this.world == world && usedSmoke == 0
    {
      this.world, usedSmoke := world, 0;
    }

    /** Applies one transaction and writes its receipt. */
    method ApplyTransaction(msg: Msg, gp: SmokePool, rules: Rules, vm: Vm, coinbase: Addr)
      returns (error: Option<TxError>, receipt: Receipt, panics: bool)
      requires gp.left + usedSmoke <= MAX64 && Conserves(vm)
      modifies this, gp
      ensures !panics && error == Check(old(world), old(gp.left), msg, rules)
      ensures error.None? ==> Apply(old(world), old(gp.left), msg, rules, vm, coinbase) == Some((world, gp.left))
      ensures error.Some? ==> usedSmoke == old(usedSmoke)
      ensures error.None? ==>
        receipt.used == old(gp.left) - gp.left && receipt.cumulative == usedSmoke == old(usedSmoke) + receipt.used
      ensures error.None? ==> Tells(receipt, old(world), msg, rules, vm)
    {
      hide Check, Execution, Settle, Used, Intrinsic, Total, Refunds, Pays;
      var st := new StateTransition(gp, msg, rules, coinbase, vm, world);
      var used, failed;
      error, used, failed, panics := st.TransitionDb();
      world := st.world;
      receipt := Receipt(usedSmoke, used, failed);
      if error.Some? {
        return;
      }
      usedSmoke := usedSmoke + used;
      receipt := Receipt(usedSmoke, used, failed);
    }

    /** Processes a block.  Pool and smoke used always make up the block's limit, so no sum leaves 64
        bits and the pool never panics; money is conserved. */
    method Process(msgs: seq<Msg>, limit: nat, rules: Rules, vm: Vm, coinbase: Addr)
      returns (failedAt: Option<nat>, receipts: seq<Receipt>, panics: bool)
      requires usedSmoke == 0 && limit <= MAX64 && Conserves(vm)
      modifies this
      ensures !panics && AddUp(receipts, msgs, rules) && usedSmoke <= limit
      ensures failedAt.None? <==> ApplyFirst(old(world), limit, msgs, |msgs|, rules, vm, coinbase).Some?
      ensures failedAt.None? ==> |receipts| == |msgs| && Total(world) == Total(old(world))
      ensures failedAt.None? ==>
        ApplyFirst(old(world), limit, msgs, |msgs|, rules, vm, coinbase) == Some((world, limit - usedSmoke))
      ensures SoFar(receipts, |receipts|) == usedSmoke
      ensures forall i: nat :: i <= |receipts| ==>
        Reached(old(world), limit, msgs, i, SoFar(receipts, i), rules, vm, coinbase)
      ensures forall i: nat :: i < |receipts| ==>
        TellsAfter(receipts[i], old(world), limit, msgs, i, rules, vm, coinbase)
      ensures failedAt.Some? ==>
        && failedAt.value == |receipts| < |msgs|
        && StopsAt(ApplyFirst(old(world), limit, msgs, |receipts|, rules, vm, coinbase), msgs[|receipts|], rules)
    {
      hide Check, Apply, Total, IntrinsicOf, AddUp, Tells;
      NoneAddUp(msgs, rules);
      var gp := new SmokePool();
      panics := gp.AddSmoke(limit);
      receipts, failedAt := [], None;
      for i := 0 to |msgs|
        invariant !panics && gp.left + usedSmoke == limit && fresh(gp)
        invariant ApplyFirst(old(world), limit, msgs, i, rules, vm, coinbase) == Some((world, gp.left))
        invariant |receipts| == i && AddUp(receipts, msgs, rules) && Total(world) == Total(old(world))
        invariant SoFar(receipts, i) == usedSmoke
        invariant forall k: nat :: k <= i ==>
          Reached(old(world), limit, msgs, k, SoFar(receipts, k), rules, vm, coinbase)
        invariant forall k: nat :: k < i ==>
          TellsAfter(receipts[k], old(world), limit, msgs, k, rules, vm, coinbase)
      {
        ghost var before, left := world, gp.left;
        var error, receipt;
        error, receipt, panics := ApplyTransaction(msgs[i], gp, rules, vm, coinbase);
        if error.Some? {
          failedAt := Some(i);
          ApplyFails(old(world), limit, msgs, i, |msgs|, rules, vm, coinbase);
          return;
        }
        ApplyConserves(before, left, msgs[i], rules, vm, coinbase);
        AddUpMore(receipts, receipt, msgs, rules);
        assert forall k: nat :: k <= i ==> SoFar(receipts + [receipt], k) == SoFar(receipts, k);
        assert TellsAfter(receipt, old(world), limit, msgs, i, rules, vm, coinbase);
        receipts := receipts + [receipt];
      }
    }
  }

  lemma {:induction false} ApplyFails(w: World, pool: nat, msgs: seq<Msg>, k: nat, n: nat, rules: Rules, vm: Vm,
                                      coinbase: Addr)
    requires Conserves(vm) && k < n <= |msgs| && ApplyFirst(w, pool, msgs, k, rules, vm, coinbase).Some?
    requires var s := ApplyFirst(w, pool, msgs, k, rules, vm, coinbase).value; Check(s.0, s.1, msgs[k], rules).Some?
    ensures ApplyFirst(w, pool, msgs, n, rules, vm, coinbase).None?
    decreases n
  {
    hide Check, Apply;
    if k + 1 == n {
      var s := ApplyFirst(w, pool, msgs, k, rules, vm, coinbase).value;
      ApplyUnchecked(s.0, s.1, msgs[k], rules, vm, coinbase);
    } else {
      ApplyFails(w, pool, msgs, k, n - 1, rules, vm, coinbase);
    }
  }

  // ---------- validated transactions execute ----------

  datatype PoolError =
    | OversizedData
    | NegativeValue
    | OverBlockLimit
    | Underpriced
    | PoolNonceTooLow
    | PoolInsufficientFunds
    | PoolSmokeOverflow
    | TooLittleSmoke

  /** The pool's validation against the head state; `size` is the encoded size. */
  method ValidateTx(m: Msg, size: nat, local: bool, w: World, minPrice: nat, maxSmoke: nat,
                    istanbul: bool) returns (error: Option<PoolError>)
    ensures error.None? <==>
      (&& size <= TX_MAX_SIZE && m.value >= 0 && m.smoke <= maxSmoke && (local || m.price >= minPrice)
       && Nonce(w, m.from) <= m.nonce && Balance(w, m.from) >= Fee(m) + m.value
       && IntrinsicOf(m, Rules(true, istanbul)) <= MAX64 && m.smoke >= IntrinsicOf(m, Rules(true, istanbul)))
  {
    hide Intrinsic, Fee;
    if size > TX_MAX_SIZE {
      return Some(OversizedData);
    }
    if m.value < 0 {
      return Some(NegativeValue);
    }
    if maxSmoke < m.smoke {
      return Some(OverBlockLimit);
    }
    if !local && m.price < minPrice {
      return Some(Underpriced);
    }
    if Nonce(w, m.from) > m.nonce {
      return Some(PoolNonceTooLow);
    }
    if Balance(w, m.from) < Fee(m) + m.value {
      return Some(PoolInsufficientFunds);
    }
    var intrinsic, overflow := IntrinsicSmoke(m.data, m.to.None?, Rules(true, istanbul));
    if overflow {
      return Some(PoolSmokeOverflow);
    }
    if m.smoke < intrinsic {
      return Some(TooLittleSmoke);
    }
    error := None;
  }

  /** What validation checks of a transaction itself, apart from nonce and balance. */
  ghost predicate WellPriced(m: Msg, rules: Rules) {
    m.value >= 0 && IntrinsicOf(m, rules) <= MAX64 && m.smoke >= IntrinsicOf(m, rules)
  }

  /** A validated transaction whose turn it is meets every check of the state transition. */
  lemma ValidatedPasses(w: World, pool: nat, m: Msg, rules: Rules)
    requires WellPriced(m, rules) && Nonce(w, m.from) == m.nonce && Balance(w, m.from) >= Fee(m) + m.value
    requires pool >= m.smoke
    ensures Check(w, pool, m, rules).None?
  {
  }

  /** The machine takes no more than the value from the sender and uses up one nonce for a creation
      and none for a call. */
  ghost predicate Tame(vm: Vm) {
    forall w, m: Msg, smoke :: m.value >= 0 ==>
      && Balance(vm(w, m, smoke).world, m.from) >= Balance(w, m.from) - m.value
      && Nonce(vm(w, m, smoke).world, m.from) == Nonce(w, m.from) + if m.to.None? then 1 else 0
  }

  /** After a message its sender has paid at most the announced cost and the next nonce is due. */
  lemma SenderAfter(w: World, pool: nat, m: Msg, rules: Rules, vm: Vm, coinbase: Addr)
    requires Conserves(vm) && Tame(vm) && m.value >= 0 && Apply(w, pool, m, rules, vm, coinbase).Some?
    ensures var after := Apply(w, pool, m, rules, vm, coinbase).value;
      && Balance(after.0, m.from) >= Balance(w, m.from) - Fee(m) - m.value
      && Nonce(after.0, m.from) == Nonce(w, m.from) + 1
      && after.1 >= pool - m.smoke
  {
    hide Total, Fee, Intrinsic;
    var r := Execution(w, m, rules, vm);
    assert Unused(m, r) * m.price >= 0 && Used(m, r) * m.price >= 0;
    assert Balance(Entered(w, m), m.from) == Balance(w, m.from) - Fee(m);
  }

  function CostSum(msgs: seq<Msg>, n: nat): int
    requires n <= |msgs|
  {
    if n == 0 then 0 else CostSum(msgs, n - 1) + Fee(msgs[n - 1]) + msgs[n - 1].value
  }

  function SmokeSum(msgs: seq<Msg>, n: nat): nat
    requires n <= |msgs|
  {
    if n == 0 then 0 else SmokeSum(msgs, n - 1) + msgs[n - 1].smoke
  }

  /** Consecutive well-priced transactions of one account. */
  ghost predicate IsBatch(msgs: seq<Msg>, a: Addr, nonce: nat, rules: Rules) {
    forall i :: 0 <= i < |msgs| ==> msgs[i].from == a && msgs[i].nonce == nonce + i && WellPriced(msgs[i], rules)
  }

  lemma {:induction false} SumsGrow(msgs: seq<Msg>, a: Addr, nonce: nat, rules: Rules, k: nat, n: nat)
    requires IsBatch(msgs, a, nonce, rules) && k <= n <= |msgs|
    ensures CostSum(msgs, k) <= CostSum(msgs, n) && SmokeSum(msgs, k) <= SmokeSum(msgs, n)
    decreases n
  {
    hide Intrinsic;
    if k < n {
      SumsGrow(msgs, a, nonce, rules, k, n - 1);
      FeeNat(msgs[n - 1]);
    }
  }

  lemma FeeNat(m: Msg)
    ensures Fee(m) >= 0
  {
  }

  /** A run of an account's transactions that its balance covers and the block has room for
      executes completely. */
  lemma {:induction false} BatchExecutes(w: World, pool: nat, msgs: seq<Msg>, n: nat, a: Addr, rules: Rules, vm: Vm,
                                         coinbase: Addr)
    requires Conserves(vm) && Tame(vm) && n <= |msgs| && IsBatch(msgs, a, Nonce(w, a), rules)
    requires CostSum(msgs, |msgs|) <= Balance(w, a) && SmokeSum(msgs, |msgs|) <= pool
    ensures var s := ApplyFirst(w, pool, msgs, n, rules, vm, coinbase);
      && s.Some? && Nonce(s.value.0, a) == Nonce(w, a) + n
      && Balance(s.value.0, a) >= Balance(w, a) - CostSum(msgs, n) && s.value.1 >= pool - SmokeSum(msgs, n)
  {
    hide Check, Apply, Total, Fee, IntrinsicOf, Conserves, Tame;
    if n > 0 {
      BatchExecutes(w, pool, msgs, n - 1, a, rules, vm, coinbase);
      var s, m := ApplyFirst(w, pool, msgs, n - 1, rules, vm, coinbase).value, msgs[n - 1];
      SumsGrow(msgs, a, Nonce(w, a), rules, n, |msgs|);
      ValidatedPasses(s.0, s.1, m, rules);
      ApplyChecked(s.0, s.1, m, rules, vm, coinbase);
      SenderAfter(s.0, s.1, m, rules, vm, coinbase);
    }
  }

  lemma ApplyUnchecked(w: World, pool: nat, m: Msg, rules: Rules, vm: Vm, coinbase: Addr)
    requires Conserves(vm) && Check(w, pool, m, rules).Some?
    ensures Apply(w, pool, m, rules, vm, coinbase).None?
  {
  }

  lemma ApplyChecked(w: World, pool: nat, m: Msg, rules: Rules, vm: Vm, coinbase: Addr)
    requires Conserves(vm) && Check(w, pool, m, rules).None?
    ensures Apply(w, pool, m, rules, vm, coinbase).Some?
  {
  }
}
