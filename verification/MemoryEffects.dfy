/** What a written plan leaves in each table, and when the graph accepts its references. */
module MemoryEffects {
  import opened Common
  import opened MemoryClaims
  import opened MemoryPlans
  import opened MemoryRequests

  // ----- labels

  function Members(names: seq<string>): set<string> {
    set i | 0 <= i < |names| :: names[i]
  }

  lemma {:induction false} NotStoredIsNew(names: seq<string>, stored: set<string>)
    ensures Members(NotStored(names, stored)) !! stored
  {
    if names != [] { NotStoredIsNew(names[..|names| - 1], stored); }
  }

  // ----- links

  /** The first k planned links made one by one, each with its reason; what is stored stays. */
  function LinksAfter(links: map<Link, string>, planned: seq<PlannedLink>, k: nat): map<Link, string>
    requires k <= |planned|
  {
    if k == 0 then links
    else
      var before, p := LinksAfter(links, planned, k - 1), planned[k - 1];
      if p.skip || p.write.link in before then before else before[p.write.link := p.write.reason]
  }

  ghost function NewLinks(planned: seq<PlannedLink>, k: nat): set<Link>
    requires k <= |planned|
  {
    set j | 0 <= j < k && !planned[j].skip :: planned[j].write.link
  }

  lemma NewLinksStep(planned: seq<PlannedLink>, k: nat)
    requires k < |planned|
    ensures NewLinks(planned, k + 1) == NewLinks(planned, k) + if planned[k].skip then {} else {planned[k].write.link}
  {
  }

  /** An accurate plan's unskipped link is neither stored nor created by an earlier one. */
  lemma AccurateMeansNew(planned: seq<PlannedLink>, stored: set<Link>, k: nat)
    requires LinksAccurate(planned, stored) && k < |planned|
    ensures !planned[k].skip ==> planned[k].write.link !in stored + NewLinks(planned, k)
  {
    forall j | 0 <= j < k && planned[j].write.link == planned[k].write.link
      ensures planned[k].skip
    {
      assert SentBefore(planned, k);
    }
  }

  /** The stored links stay as they are and the unskipped ones are added. */
  lemma {:induction false} LinksAfterAdds(links: map<Link, string>, planned: seq<PlannedLink>, k: nat)
    requires k <= |planned|
    ensures LinksAfter(links, planned, k).Keys == links.Keys + NewLinks(planned, k)
    ensures forall x | x in links :: LinksAfter(links, planned, k)[x] == links[x]
  {
    if k > 0 {
      LinksAfterAdds(links, planned, k - 1);
      NewLinksStep(planned, k - 1);
    }
  }

  /** An accurate plan's links each carry their own reason. */
  lemma {:induction false} LinkReasons(links: map<Link, string>, planned: seq<PlannedLink>, k: nat, j: nat)
    requires j < k <= |planned| && !planned[j].skip && LinksAccurate(planned, links.Keys)
    ensures planned[j].write.link in LinksAfter(links, planned, k)
    ensures LinksAfter(links, planned, k)[planned[j].write.link] == planned[j].write.reason
  {
    hide LinksAccurate;
    LinksAfterAdds(links, planned, k - 1);
    if j == k - 1 {
      AccurateMeansNew(planned, links.Keys, j);
    } else {
      LinkReasons(links, planned, k - 1, j);
    }
  }

  // ----- references

  function ReasonOf(reference: Reference): string {
    if reference.reason.Some? then reference.reason.value else DEFAULT_ABOUT_REASON
  }

  /** How many pairs of a reference and a memory there are. */
  function Grid(references: seq<Reference>, memories: nat): nat {
    |references| * memories
  }

  lemma OneRowMoreInGrid(references: seq<Reference>, memories: nat)
    ensures Grid(references, 0) == 0 && Grid(references, memories + 1) == Grid(references, memories) + |references|
  {
    assert |references| * (memories + 1) == |references| * memories + |references|;
  }

  /** A reference keeps the reason sent with it, and has the standing one when none was. */
  lemma ReasonsSpelled(reference: Reference, text: string)
    ensures reference.reason == Some(text) ==> ReasonOf(reference) == text
    ensures reference.reason == None ==> ReasonOf(reference) == "captured under referenced ticket"
  {
  }

  /** The first j references made for one memory. */
  function ReferencesAfter(about: map<(int, Ticket), string>, memory: int, references: seq<Reference>,
                           j: nat): map<(int, Ticket), string>
    requires j <= |references|
  {
    if j == 0 then about
    else
      var before, pair := ReferencesAfter(about, memory, references, j - 1), (memory, references[j - 1].ticket);
      if pair in before then before else before[pair := ReasonOf(references[j - 1])]
  }

  /** Every reference made for each of the first i memories. */
  function AboutAfter(about: map<(int, Ticket), string>, uuids: seq<int>, references: seq<Reference>,
                      i: nat): map<(int, Ticket), string>
    requires i <= |uuids|
  {
    if i == 0 then about
      else ReferencesAfter(AboutAfter(about, uuids, references, i - 1), uuids[i - 1], references, |references|)
  }

  predicate Pairs(uuids: seq<int>, i: nat, references: seq<Reference>, x: (int, Ticket))
    requires i <= |uuids|
  {
    x.0 in uuids[..i] && NamesTicket(references, x.1)
  }

  ghost predicate ReasonGiven(references: seq<Reference>, t: Ticket, reason: string) {
    exists n :: 0 <= n < |references| && references[n].ticket == t && reason == ReasonOf(references[n])
  }

  lemma ReasonStillGiven(references: seq<Reference>, j: nat, t: Ticket, reason: string)
    requires j < |references| && ReasonGiven(references[..j], t, reason)
    ensures ReasonGiven(references[..j + 1], t, reason)
  {
    var n :| 0 <= n < j && references[..j][n].ticket == t && reason == ReasonOf(references[..j][n]);
    assert references[..j + 1][n] == references[..j][n];
  }

  lemma NoneNamed(references: seq<Reference>)
    requires references == []
    ensures forall t :: !NamesTicket(references, t)
  {
  }

  lemma {:induction false} ReferencesAfterAdds(about: map<(int, Ticket), string>, memory: int,
                                               references: seq<Reference>, j: nat)
    requires j <= |references|
    ensures forall x :: x in ReferencesAfter(about, memory, references, j) <==>
                          x in about || (x.0 == memory && NamesTicket(references[..j], x.1))
    ensures forall x | x in about :: ReferencesAfter(about, memory, references, j)[x] == about[x]
  {
    hide NamesTicket;
    if j > 0 {
      var before, last := references[..j - 1], references[j - 1];
      ReferencesAfterAdds(about, memory, references, j - 1);
      NamesAppend(before, last);
      assert references[..j] == before + [last];
    } else {
      NoneNamed(references[..0]);
    }
  }

  lemma {:induction false} ReferenceReason(about: map<(int, Ticket), string>, memory: int, references: seq<Reference>,
                                           j: nat, x: (int, Ticket))
    requires j <= |references| && x in ReferencesAfter(about, memory, references, j) && x !in about
    ensures ReasonGiven(references[..j], x.1, ReferencesAfter(about, memory, references, j)[x])
  {
    if j > 0 {
      if x in ReferencesAfter(about, memory, references, j - 1) {
        ReferenceReason(about, memory, references, j - 1, x);
        ReasonStillGiven(references, j - 1, x.1, ReferencesAfter(about, memory, references, j - 1)[x]);
      } else {
        assert references[..j][j - 1] == references[j - 1];
      }
    }
  }

  /** What is stored stays; every memory gets every reference, with the reason given or the default one. */
  lemma {:induction false} AboutAfterIs(about: map<(int, Ticket), string>, uuids: seq<int>,
                                        references: seq<Reference>, i: nat)
    requires i <= |uuids|
    ensures var after := AboutAfter(about, uuids, references, i);
            && (forall x :: x in after <==> x in about || Pairs(uuids, i, references, x))
            && (forall x | x in about :: after[x] == about[x])
            && forall x | x in after && x !in about :: ReasonGiven(references, x.1, after[x])
  {
    hide ReasonGiven, NamesTicket, ReferencesAfter;
    if i > 0 {
      AboutAfterIs(about, uuids, references, i - 1);
      var before, after := AboutAfter(about, uuids, references, i - 1), AboutAfter(about, uuids, references, i);
      ReferencesAfterAdds(before, uuids[i - 1], references, |references|);
      assert references[..|references|] == references;
      assert uuids[..i] == uuids[..i - 1] + [uuids[i - 1]];
      forall x | x in after && x !in about
        ensures ReasonGiven(references, x.1, after[x])
      {
        if x !in before { ReferenceReason(before, uuids[i - 1], references, |references|, x); }
      }
    }
  }

  /** The graph makes a reference only to a ticket that has a vertex; one that is stored needs none. */
  predicate ReferableOne(about: set<(int, Ticket)>, memory: int, references: seq<Reference>, j: nat,
                         vertices: set<Ticket>)
    requires j <= |references|
  {
    forall n | 0 <= n < j :: (memory, references[n].ticket) in about || references[n].ticket in vertices
  }

  predicate Referable(about: set<(int, Ticket)>, uuids: seq<int>, references: seq<Reference>, vertices: set<Ticket>) {
    forall i | 0 <= i < |uuids| :: ReferableOne(about, uuids[i], references, |references|, vertices)
  }

  /** What was made so far does not change whether the next reference can be made. */
  lemma OneMoreReferable(about: map<(int, Ticket), string>, memory: int, references: seq<Reference>, j: nat,
                         vertices: set<Ticket>)
    requires j < |references| && ReferableOne(about.Keys, memory, references, j, vertices)
    ensures ReferableOne(about.Keys, memory, references, j + 1, vertices) <==>
            (memory, references[j].ticket) in ReferencesAfter(about, memory, references, j)
              || references[j].ticket in vertices
  {
    hide ReferencesAfter;
    ReferencesAfterAdds(about, memory, references, j);
    var pair := (memory, references[j].ticket);
    if pair in ReferencesAfter(about, memory, references, j) && pair !in about {
      var n :| 0 <= n < j && references[..j][n].ticket == pair.1;
      assert references[n].ticket in vertices;
    }
  }

  /** Nor whether the next memory's can. */
  lemma StillReferable(about: map<(int, Ticket), string>, uuids: seq<int>, references: seq<Reference>, i: nat,
                       vertices: set<Ticket>)
    requires i < |uuids|
    requires forall n | 0 <= n < i :: ReferableOne(about.Keys, uuids[n], references, |references|, vertices)
    ensures ReferableOne(about.Keys, uuids[i], references, |references|, vertices) <==>
            ReferableOne(AboutAfter(about, uuids, references, i).Keys, uuids[i], references, |references|, vertices)
  {
    hide AboutAfter, ReasonGiven;
    AboutAfterIs(about, uuids, references, i);
    forall j | 0 <= j < |references| && (uuids[i], references[j].ticket) in AboutAfter(about, uuids, references, i)
      ensures (uuids[i], references[j].ticket) in about || references[j].ticket in vertices
    {
      var x := (uuids[i], references[j].ticket);
      if x !in about {
        assert Pairs(uuids, i, references, x);
        var n :| 0 <= n < i && uuids[n] == x.0;
        assert ReferableOne(about.Keys, uuids[n], references, |references|, vertices);
      }
    }
  }

  // ----- the whole write

  function Uuids(items: seq<Planned>, mint: seq<int>): (uuids: seq<int>)
    requires |items| == |mint|
    ensures |uuids| == |items| && forall i | 0 <= i < |items| :: uuids[i] == NewUuid(items[i], mint[i])
  {
    seq(|items|, i requires 0 <= i < |items| => NewUuid(items[i], mint[i]))
  }

  /** The tables once a plan is written. */
  function After(env: Env, t: Tables, plan: WritePlan, mint: seq<int>, clock: seq<Instant>): Tables
    requires |plan.items| == |mint| == |clock|
  {
    Tables(Commit(env, t.rows, plan.group, plan.items, mint, clock), t.labels + Members(plan.labels),
           LinksAfter(t.links, plan.links, |plan.links|),
           AboutAfter(t.about, Uuids(plan.items, mint), plan.references, |plan.items|),
           t.productLinks + Declared(plan.productName, plan.initiative))
  }
}
