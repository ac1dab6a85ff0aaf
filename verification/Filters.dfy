/** The participant filters of `list_expenses`: names, or "me", turned into IDs. */
module Filters {
  import opened Wrappers
  import opened Text
  import opened Spliit
  import Listings

  /** What the caller asks for; an empty name asks for nothing. */
  datatype Request = Request(mine: bool, paidBy: string, involving: string)

  datatype FilterError = NoIdentity | Unavailable | UnknownName(name: string)

  /** The group's roster, which may fail to be fetched, and the participant pinned as
      the caller. */
  datatype Scene = Scene(fold: Folding, roster: Option<Roster>, me: string)

  predicate SaysMe(fold: Folding, name: string) {
    NameKey(fold, name) == Fold(fold, "me")
  }

  function Resolved(s: Scene, name: string, isMe: bool): Result<string, FilterError> {
    if isMe then Ok(s.me)
    else if name == "" then Ok("")
    else match s.roster
      case None => Err(Unavailable)
      case Some(roster) =>
        match ByName(s.fold, roster, name)
        case None => Err(UnknownName(name))
        case Some(p) => Ok(p.id)
  }

  function FiltersFor(s: Scene, r: Request): Result<Listings.Query, FilterError> {
    var payerIsMe, involvedIsMe := r.mine || SaysMe(s.fold, r.paidBy), SaysMe(s.fold, r.involving);
    if (payerIsMe || involvedIsMe) && s.me == "" then Err(NoIdentity)
    else match Resolved(s, r.paidBy, payerIsMe)
      case Err(e) => Err(e)
      case Ok(payer) =>
        match Resolved(s, r.involving, involvedIsMe)
        case Err(e) => Err(e)
        case Ok(involved) => Ok(Listings.Query(payer, involved))
  }

  /** `resolveExpenseFilters` */
  method ResolveExpenseFilters(s: Scene, r: Request) returns (q: Result<Listings.Query, FilterError>)
    ensures q == FiltersFor(s, r)
  {
    var payer, involved := "", "";
    var payerIsMe, involvedIsMe := r.mine || SaysMe(s.fold, r.paidBy), SaysMe(s.fold, r.involving);
    if payerIsMe || involvedIsMe {
      if s.me == "" {
        return Err(NoIdentity);
      }
      if payerIsMe {
        payer := s.me;
      }
      if involvedIsMe {
        involved := s.me;
      }
    }
    if !((r.paidBy != "" && payer == "") || (r.involving != "" && involved == "")) {
      return Ok(Listings.Query(payer, involved));
    }
    if s.roster.None? {
      return Err(Unavailable);
    }
    if r.paidBy != "" && payer == "" {
      var p := FindByName(s.fold, s.roster.value, r.paidBy);
      if p.None? {
        return Err(UnknownName(r.paidBy));
      }
      payer := p.value.id;
    }
    if r.involving != "" && involved == "" {
      var p := FindByName(s.fold, s.roster.value, r.involving);
      if p.None? {
        return Err(UnknownName(r.involving));
      }
      involved := p.value.id;
    }
    q := Ok(Listings.Query(payer, involved));
  }

  /** The filter is the caller, nobody in particular, or the first participant with the
      name. */
  ghost predicate FilterIs(s: Scene, name: string, isMe: bool, id: string) {
    if isMe then id == s.me != ""
    else if name == "" then id == ""
    else
      && s.roster.Some?
      && exists i: nat :: FirstNamed(s.fold, s.roster.value, name, i) && s.roster.value[i].value.id == id
  }

  lemma {:induction false} ResolvedMeaning(s: Scene, name: string, isMe: bool, id: string)
    requires isMe ==> s.me != ""
    ensures Resolved(s, name, isMe) == Ok(id) <==> FilterIs(s, name, isMe, id)
  {
    if !isMe && name != "" && s.roster.Some? {
      var at := NamedMeaning(s.fold, s.roster.value, name);
      if i: nat :| FirstNamed(s.fold, s.roster.value, name, i) && s.roster.value[i].value.id == id {
        assert HasName(s.fold, s.roster.value[i], NameKey(s.fold, name));
        assert !Nobody(s.fold, s.roster.value, name);
        assert at == i;
      }
    }
  }

  /** The filters are exactly the participants asked for. */
  lemma {:induction false} FiltersMeaning(s: Scene, r: Request, q: Listings.Query)
    ensures FiltersFor(s, r) == Ok(q) <==>
      && FilterIs(s, r.paidBy, r.mine || NameKey(s.fold, r.paidBy) == Fold(s.fold, "me"), q.payer)
      && FilterIs(s, r.involving, NameKey(s.fold, r.involving) == Fold(s.fold, "me"), q.involved)
  {
    if s.me != "" || !(r.mine || SaysMe(s.fold, r.paidBy) || SaysMe(s.fold, r.involving)) {
      ResolvedMeaning(s, r.paidBy, r.mine || SaysMe(s.fold, r.paidBy), q.payer);
      ResolvedMeaning(s, r.involving, SaysMe(s.fold, r.involving), q.involved);
    }
  }
}
