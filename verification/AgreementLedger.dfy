/** What move-in, move-out and renewal keep of the agreement ledger. */
module AgreementLedger {
  import opened Wrappers
  import opened Ledger
  import opened OccupancyInvariants

  // ---------------------------------------------------------------- the ledger alone

  /** Free for `g`: no active agreement of its tenant, none of its flat on its dates, `except` aside. */
  ghost predicate Free(gs: seq<Agreement>, g: Agreement, except: Option<nat>) {
    forall a :: 0 <= a < |gs| && gs[a].status == Active && except != Some(a) ==>
      && gs[a].tenant != g.tenant
      && (gs[a].flat == g.flat ==> !Overlaps(gs[a], g.start, g.end))
  }

  lemma AppendKeeps(gs: seq<Agreement>, g: Agreement)
    requires LedgerSound(gs) && Free(gs, g, None)
    requires g.status == Active && g.renewalOf.None?
    ensures LedgerSound(gs + [g])
  {
    var gs' := gs + [g];
    forall a | 0 <= a < |gs'| && gs'[a].status == Renewed
      ensures exists b :: RenewedBy(gs', a, b)
    {
      var b :| RenewedBy(gs, a, b);
      assert RenewedBy(gs', a, b);
    }
    forall a: nat, b: nat, c: nat | RenewedBy(gs', a, b) && RenewedBy(gs', a, c)
      ensures b == c
    {
      assert RenewedBy(gs, a, b) && RenewedBy(gs, a, c);
    }
  }

  /** The renewal is appended and the agreement it renews retired. */
  function WithRenewal(gs: seq<Agreement>, g: Agreement, a: nat): (gs': seq<Agreement>)
    requires a < |gs|
    ensures |gs'| == |gs| + 1 && gs'[|gs|] == g && gs'[a] == gs[a].(status := Renewed)
    ensures forall b :: 0 <= b < |gs| && b != a ==> gs'[b] == gs[b]
  {
    (gs + [g])[a := gs[a].(status := Renewed)]
  }

  lemma RenewKeepsApart(gs: seq<Agreement>, g: Agreement, a: nat)
    requires OneActive(gs) && DatesDisjoint(gs) && a < |gs| && Free(gs, g, Some(a))
    ensures OneActive(WithRenewal(gs, g, a)) && DatesDisjoint(WithRenewal(gs, g, a))
  {
  }

  lemma RenewKeepsChains(gs: seq<Agreement>, g: Agreement, a: nat)
    requires RenewedOnce(gs) && Forward(gs) && a < |gs| && gs[a].status == Active
    requires g.status == Active && g.renewalOf == Some(a)
    ensures RenewedOnce(WithRenewal(gs, g, a))
  {
    var gs' := WithRenewal(gs, g, a);
    assert RenewedBy(gs', a, |gs|);
    forall c: nat | c < |gs'| && gs'[c].status == Renewed && c != a && c < |gs|
      ensures exists b :: RenewedBy(gs', c, b)
    {
      var b :| RenewedBy(gs, c, b);
      assert RenewedBy(gs', c, b);
    }
    forall c: nat, b: nat, d: nat | RenewedBy(gs', c, b) && RenewedBy(gs', c, d)
      ensures b == d
    {
      assert b < |gs| ==> RenewedBy(gs, c, b);
      assert d < |gs| ==> RenewedBy(gs, c, d);
    }
  }

  lemma RenewKeeps(gs: seq<Agreement>, g: Agreement, a: nat)
    requires LedgerSound(gs) && a < |gs| && gs[a].status == Active
    requires g.status == Active && g.renewalOf == Some(a) && Free(gs, g, Some(a))
    requires g.tenant == gs[a].tenant && g.flat == gs[a].flat && gs[a].start < g.start && gs[a].end < g.end
    ensures LedgerSound(WithRenewal(gs, g, a))
  {
    RenewKeepsApart(gs, g, a);
    RenewKeepsChains(gs, g, a);
  }

  lemma RenewKeepsTerms(gs: seq<Agreement>, tenants: seq<Tenant>, g: Agreement, a: nat, tenant: Tenant)
    requires TermsCached(gs, tenants) && a < |gs| && g.tenant < |tenants| && Free(gs, g, Some(a))
    requires CarriesTerms(g, tenant.terms)
    ensures TermsCached(WithRenewal(gs, g, a), tenants[g.tenant := tenant])
  {
  }

  /** An active agreement is terminated, or its channel edited. */
  lemma RewriteKeeps(gs: seq<Agreement>, a: nat, g: Agreement)
    requires LedgerSound(gs) && a < |gs| && gs[a].status == Active
    requires g.status == Active || g.status == Terminated
    requires g.flat == gs[a].flat && g.tenant == gs[a].tenant && g.start == gs[a].start && g.end == gs[a].end
    requires g.renewalOf == gs[a].renewalOf
    ensures LedgerSound(gs[a := g])
  {
    var gs' := gs[a := g];
    assert forall b :: 0 <= b < |gs| ==> gs'[b].renewalOf == gs[b].renewalOf;
    forall c | 0 <= c < |gs'| && gs'[c].status == Renewed
      ensures exists b :: RenewedBy(gs', c, b)
    {
      var b :| RenewedBy(gs, c, b);
      assert RenewedBy(gs', c, b);
    }
    forall c: nat, b: nat, d: nat | RenewedBy(gs', c, b) && RenewedBy(gs', c, d)
      ensures b == d
    {
      assert RenewedBy(gs, c, b) && RenewedBy(gs, c, d);
    }
  }

  // ---------------------------------------------------------------- the steps

  /** A tenant with an active agreement on the cached dates is always stopped by the overlap guard. */
  lemma SecondAgreementRefused(s: Db, f: nat, t: nat, a: nat, on: Date, society: Option<nat>)
    requires AgreementsSound(s) && ActiveOf(s, a, t) && s.tenants[t].stay.flat == f
    ensures TenantMoveIn(s, f, t, on, true, society).Failure?
  {
  }

  lemma TenantArrivesKeepsLedger(s: Db, f: nat, t: nat, on: Date, create: bool, society: Option<nat>)
    requires AgreementsSound(s)
    requires TenantMoveIn(s, f, t, on, create, society).Success?
    ensures AgreementsSound(TenantArrives(s, f, t, on, create))
  {
    var terms := s.tenants[t].terms;
    if create && terms.start.Some? && terms.end.Some? {
      var g := FirstAgreement(f, t, terms);
      forall a | 0 <= a < |s.agreements| && s.agreements[a].status == Active
        ensures s.agreements[a].tenant != t
        ensures s.agreements[a].flat == f ==> !Overlaps(s.agreements[a], terms.start.value, terms.end.value)
      {
        if s.agreements[a].tenant == t {
          SecondAgreementRefused(s, f, t, a, on, society);
        }
        assert None != Some(a);
      }
      AppendKeeps(s.agreements, g);
    }
  }

  lemma TenantLeavesKeepsLedger(s: Db, f: nat, t: nat, on: Date, ended: Option<nat>)
    requires AgreementsSound(s) && Picked(s, t, ended)
    requires f < |s.flats| && t < |s.tenants|
    ensures AgreementsSound(TenantLeaves(s, f, t, on, ended))
  {
    if ended.Some? {
      RewriteKeeps(s.agreements, ended.value,
                   s.agreements[ended.value].(status := Terminated, endedBy := Some(on)));
    }
  }

  /** Move-out ends one agreement; with at most one active, none is left. */
  lemma MoveOutEndsTenancy(s: Db, f: nat, t: nat, on: Date, society: Option<nat>, ended: Option<nat>)
    requires AgreementsSound(s) && Picked(s, t, ended)
    requires TenantMoveOut(s, f, t, on, society, ended).Success?
    ensures var s' := TenantMoveOut(s, f, t, on, society, ended).value;
            forall a :: 0 <= a < |s'.agreements| ==> !ActiveOf(s', a, t)
  {
    var s' := TenantMoveOut(s, f, t, on, society, ended).value;
    forall a | 0 <= a < |s'.agreements|
      ensures !ActiveOf(s', a, t)
    {
      if ended.Some? && a != ended.value {
        assert !ActiveOf(s, a, t);
      } else if ended.None? {
        assert !ActiveOf(s, a, t);
      }
    }
  }

  /** The guard excludes only the agreement being renewed; nothing else stands in the way of the renewal. */
  lemma RenewalIsFree(s: Db, t: nat, n: Renewal, society: Option<nat>, a: nat)
    requires AgreementsSound(s) && ActiveOf(s, a, t)
    requires RenewAgreement(s, t, n, society, Some(a)).Success?
    ensures Free(s.agreements, RenewedAgreement(s.agreements[a], a, t, s.tenants[t].stay.flat, n), Some(a))
  {
  }

  lemma RenewsKeepsLedger(s: Db, t: nat, n: Renewal, society: Option<nat>, current: Option<nat>)
    requires AgreementsSound(s) && PickedLatest(s, t, current)
    requires RenewAgreement(s, t, n, society, current).Success?
    ensures AgreementsSound(Renews(s, t, n, current.value))
  {
    var a := current.value;
    var f := s.tenants[t].stay.flat;
    assert CarriesTerms(s.agreements[a], s.tenants[t].terms);
    RenewalIsFree(s, t, n, society, a);
    var g := RenewedAgreement(s.agreements[a], a, t, f, n);
    RenewKeeps(s.agreements, g, a);
    RenewKeepsTerms(s.agreements, s.tenants, g, a, Renews(s, t, n, a).tenants[t]);
  }

  lemma EditChannelKeepsLedger(s: Db, t: nat, channel: Edit, name: Edit, society: Option<nat>, current: Option<nat>)
    requires AgreementsSound(s) && Picked(s, t, current)
    requires EditChannel(s, t, channel, name, society, current).Success?
    ensures AgreementsSound(EditChannel(s, t, channel, name, society, current).value)
  {
    if current.Some? {
      var terms := EditedTerms(s.tenants[t].terms, channel, name);
      RewriteKeeps(s.agreements, current.value,
                   s.agreements[current.value].(channel := terms.channel, channelName := terms.channelName));
    } else {
      forall a | 0 <= a < |s.agreements| && s.agreements[a].status == Active
        ensures s.agreements[a].tenant != t
      {
        assert !ActiveOf(s, a, t);
      }
    }
  }
}
