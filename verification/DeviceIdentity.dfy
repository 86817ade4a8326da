/** Deciding whether a record is about the device a controller holds, and what to advise when
    it is not. */
module DeviceIdentity {
  import opened GuardTypes

  datatype Mismatch = Match | Reenumerated | OtherCard | Unverifiable | OtherIndex

  /** What an operator is told to do next. */
  datatype Advice = RunOnIndex(n: Option<int>) | FindByUuid | RepairUuidRead

  /** A missing and an empty UUID are both useless. */
  predicate Readable(uuid: Option<string>) {
    uuid.Some? && uuid.value != ""
  }

  function DeviceMismatch(
      recUuid: Option<string>, recIndex: Option<int>, uuid: Option<string>, index: Option<int>): Mismatch
  {
    if Readable(uuid) && Readable(recUuid) && uuid != recUuid then
      if recIndex == index then Reenumerated else OtherCard
    else if Readable(uuid) && Readable(recUuid) && uuid == recUuid then
      Match
    else if Readable(recUuid) && !Readable(uuid) then
      Unverifiable
    else if index.Some? && recIndex.Some? && recIndex != index then
      OtherIndex
    else
      Match
  }

  function AdviceFor(m: Mismatch, recIndex: Option<int>): Advice
    requires m != Match
  {
    match m
    case Unverifiable => RepairUuidRead
    case Reenumerated => FindByUuid
    case _ => RunOnIndex(recIndex)
  }

  /** A reading of a card's UUID is honest when it failed or is the card's own UUID. */
  predicate Honest(uuid: Option<string>, card: string) {
    Readable(uuid) ==> uuid.value == card
  }

  /** When a record is taken to be about a card: the UUIDs agree; or the record has none, and the indexes
      agree as far as both are known. */
  lemma MatchIff(recUuid: Option<string>, recIndex: Option<int>, uuid: Option<string>, index: Option<int>)
    ensures DeviceMismatch(recUuid, recIndex, uuid, index) == Match <==>
              if recUuid == None || recUuid == Some("") then recIndex == None || index == None || recIndex == index
              else uuid == recUuid
  {
  }

  /** Which advice is given: repair the UUID read where the record has one that the card cannot be compared
      with; search by UUID where the record's own index points at the wrong card; and the record's index
      otherwise. */
  lemma AdviceIff(recUuid: Option<string>, recIndex: Option<int>, uuid: Option<string>, index: Option<int>)
    requires DeviceMismatch(recUuid, recIndex, uuid, index) != Match
    ensures var advice := AdviceFor(DeviceMismatch(recUuid, recIndex, uuid, index), recIndex);
            && (advice == RepairUuidRead <==>
                  recUuid.Some? && recUuid.value != "" && (uuid == None || uuid == Some("")))
            && (advice == FindByUuid <==>
                  recUuid.Some? && recUuid.value != "" && uuid.Some? && uuid.value != "" && recIndex == index)
            && (advice.RunOnIndex? ==> advice.n == recIndex)
  {
  }

  /** With both UUIDs readable, the indexes decide nothing. */
  lemma UuidIsAuthoritative(recUuid: Option<string>, recIndex: Option<int>, uuid: Option<string>, index: Option<int>)
    requires Readable(recUuid) && Readable(uuid)
    ensures DeviceMismatch(recUuid, recIndex, uuid, index) == Match <==> uuid == recUuid
  {
  }

  /** Every wrong card is refused, whatever its index and however its UUID reads, exactly when
      the record carries a readable UUID. */
  lemma WrongCardRefusedIff(recUuid: Option<string>, recIndex: Option<int>)
    ensures Readable(recUuid) <==>
            forall uuid, index, card: string ::
              Honest(uuid, card) && recUuid != Some(card) ==> DeviceMismatch(recUuid, recIndex, uuid, index) != Match
  {
    if !Readable(recUuid) {
      assert Honest(None, "another card") && recUuid != Some("another card");
      assert DeviceMismatch(recUuid, recIndex, None, recIndex) == Match;
    }
  }

  /** Advice to re-run on a plain index never repeats the index that was just refused. */
  lemma AdviceMakesProgress(recUuid: Option<string>, recIndex: Option<int>, uuid: Option<string>, index: Option<int>)
    ensures var m := DeviceMismatch(recUuid, recIndex, uuid, index);
            m != Match && AdviceFor(m, recIndex).RunOnIndex? ==> AdviceFor(m, recIndex).n != index
  {
  }

  /** Following plain advice once ends the loop: at the advised index the card either matches or
      is refused with advice that no longer names an index. */
  lemma AdviceTerminates(
    recUuid: Option<string>, recIndex: Option<int>, uuid: Option<string>, index: Option<int>, uuidThere: Option<string>)
    requires DeviceMismatch(recUuid, recIndex, uuid, index) != Match
    requires AdviceFor(DeviceMismatch(recUuid, recIndex, uuid, index), recIndex).RunOnIndex?
    ensures var advised := AdviceFor(DeviceMismatch(recUuid, recIndex, uuid, index), recIndex).n;
            var m := DeviceMismatch(recUuid, recIndex, uuidThere, advised);
            m == Match || !AdviceFor(m, recIndex).RunOnIndex?
  {
  }
}
