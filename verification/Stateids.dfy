/** Stateids: how they are made, compared and normalised. */
module Stateids {
  import opened NfsTypes

  /** The `other` field: a server-wide counter and the client it was issued to. */
  datatype Other = Other(counter: nat, clientid: ClientId)

  datatype Stateid = Stateid(seqid: nat, other: Other)

  const U32_MAX: int := 0xFFFF_FFFF
  const ZERO_OTHER: Other := Other(0, 0)
  const ONES_OTHER: Other := Other(U32_MAX, U64_MAX)

  const ANONYMOUS: Stateid := Stateid(0, ZERO_OTHER)
  const CURRENT: Stateid := Stateid(1, ZERO_OTHER)
  const BYPASS: Stateid := Stateid(U32_MAX, ONES_OTHER)

  predicate IsSpecial(s: Stateid) {
    s == ANONYMOUS || s == BYPASS || s == CURRENT
  }

  predicate IsInvalidSpecial(s: Stateid) {
    (s.other == ZERO_OTHER || s.other == ONES_OTHER) && !IsSpecial(s)
  }

  datatype CurrentMode = ZeroSeqid | PreserveSeqid

  datatype Normalized = Anonymous | Bypass | Concrete(stateid: Stateid)

  /**
    A concrete result is the stateid that was sent, or names the state of the current one; it is a
    reserved value only where the current stateid has the reserved `other` and its seqid is zeroed.
   */
  function Normalize(requested: Stateid, current: Option<Stateid>, mode: CurrentMode): (r: Result<Normalized>)
    ensures r.Success? && r.value.Concrete? && requested != CURRENT ==> r.value.stateid == requested
    ensures r.Success? && requested == CURRENT ==>
              && r.value.Concrete? && current.Some? && r.value.stateid.other == current.value.other
              && (mode == PreserveSeqid ==> r.value.stateid == current.value)
              && (mode == ZeroSeqid ==> r.value.stateid.seqid == 0)
    ensures r.Success? && r.value.Concrete? ==>
              (IsSpecial(r.value.stateid) <==>
                 requested == CURRENT && mode == ZeroSeqid && current.Some? && current.value.other == ZERO_OTHER)
  {
    if requested == ANONYMOUS then Success(Anonymous)
    else if requested == BYPASS then Success(Bypass)
    else if requested == CURRENT then
      if current.None? || IsSpecial(current.value) then Failure(BadStateid)
      else Success(Concrete(match mode
                            case ZeroSeqid => Stateid(0, current.value.other)
                            case PreserveSeqid => current.value))
    else if IsInvalidSpecial(requested) then Failure(BadStateid)
    else Success(Concrete(requested))
  }

  /** All zeros and all ones are reserved, a zero `other` with seqid 1 is the current stateid, and no other seqid goes with either. */
  lemma NormalizeAnswers(requested: Stateid, current: Option<Stateid>, mode: CurrentMode)
    ensures var r := Normalize(requested, current, mode);
            var zero, ones := requested.other == Other(0, 0), requested.other == Other(0xFFFF_FFFF, 0xFFFF_FFFF_FFFF_FFFF);
            && (r == Success(Anonymous) <==> zero && requested.seqid == 0)
            && (r == Success(Bypass) <==> ones && requested.seqid == 0xFFFF_FFFF)
            && (zero && requested.seqid == 1 ==>
                  (r.Success? <==> current.Some? && current.value !in {ANONYMOUS, CURRENT, BYPASS}))
            && (zero && requested.seqid > 1 ==> r == Failure(BadStateid))
            && (ones && requested.seqid != 0xFFFF_FFFF ==> r == Failure(BadStateid))
            && (!zero && !ones ==> r == Success(Concrete(requested)))
            && (r.Failure? ==> r.status == BadStateid)
  {
  }

  function ValidateSeq(stored: nat, provided: nat): Status {
    if provided == 0 || provided == stored then Ok
    else if provided < stored then OldStateid
    else BadStateid
  }
}
