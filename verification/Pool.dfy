/** How the context table and the ids in it may evolve. */
module Pool {
  import opened Regs
  import opened NpuState
  import opened Ledger

  function CreatedCount(s: State): nat {
    Tally(s.log).created
  }

  /** While ids have not wrapped, valid contexts hold distinct ids among those handed out. */
  predicate IdsOk(ctx: seq<Context>, n: nat) {
    n < TWO32 ==>
      && (forall i :: 0 <= i < |ctx| && ctx[i].valid ==> 1 <= ctx[i].id <= n)
      && (forall i, j :: 0 <= i < j < |ctx| && ctx[i].valid && ctx[j].valid ==> ctx[i].id != ctx[j].id)
  }

  /** A valid slot either still holds the context it held, or one created in between. */
  predicate Evolves(ctx: seq<Context>, n: nat, ctx': seq<Context>, n': nat) {
    && |ctx'| == |ctx|
    && n <= n'
    && forall i :: 0 <= i < |ctx| && ctx'[i].valid ==>
         (ctx[i].valid && ctx'[i].id == ctx[i].id) || exists m: nat :: n <= m < n' && ctx'[i].id == NthId(m)
  }

  predicate PoolStep(s: State, t: State) {
    && Evolves(s.ctx, CreatedCount(s), t.ctx, CreatedCount(t))
    && (IdsOk(s.ctx, CreatedCount(s)) ==> IdsOk(t.ctx, CreatedCount(t)))
  }
}
