/** The state of `useCsvUploader`: the uploaded CSV text, the editable table of rows the
    backend extracted, the saved column-mapping presets, the preset dialogs, and the
    progress of a batch save. The store (Supabase), the analysis and save endpoints and
    the session user are oracles given to the handlers as parameters. */
module CsvUpload {
  import opened Wrappers
  import opened Text
  import opened NumberInput
  import opened CsvBatch
  import ApiConfig
  import Seqs

  /** `CsvMapping` as the analysis returns it (the float `confidence` is not modelled). */
  datatype CsvMapping = CsvMapping(dateColIdx: int, itemColIdx: int, storeColIdx: int, priceColIdx: int)

  /** A row of the `csv_presets` table. */
  datatype Preset = Preset(id: string, userId: string, name: string, mapping: CsvMapping)

  /** The record `handleSavePreset` inserts. */
  datatype PresetDraft = PresetDraft(userId: string, name: string, mapping: CsvMapping)

  /** `renameTarget` / `deleteTarget`. */
  datatype PresetRef = PresetRef(id: string, name: string)

  datatype Progress = Progress(current: nat, total: nat)

  /** `handleDataChange(index, field, value)`: the field and its new value. */
  datatype RowEdit = SetDate(date: string) | SetStore(store: string) | SetPrice(price: NumberValue)

  /** What `analyzeCsv` returned: an error, or the extracted rows and the mapping used. */
  datatype AnalyzeResponse = AnalyzeFailed | Analyzed(transactions: seq<Row>, mapping: CsvMapping)

  /** What `insert([newPreset]).select()` returned: an error, or the inserted records. */
  datatype InsertResult = InsertFailed | Inserted(records: seq<Preset>)

  /** Every state variable of the hook (`isLoadingPresets` and the file input are not modelled). */
  datatype UploaderState = UploaderState(
    csvText: string, isAnalyzing: bool, parsedData: seq<EditingRow>,
    isSaving: bool, isWaiting: bool, waitTime: nat, progress: Progress,
    presets: seq<Preset>, selectedPresetId: string, currentMapping: Option<CsvMapping>,
    showPresetSaveModal: bool, newPresetName: string,
    renameTarget: Option<PresetRef>, editPresetName: string, deleteTarget: Option<PresetRef>)

  // ---------------------------------------------------------------------------
  // Specification functions

  /** `presets.find((p) => p.id === id)`. */
  function FindPreset(presets: seq<Preset>, id: string): Option<Preset> {
    if presets == [] then None
    else if presets[0].id == id then Some(presets[0])
    else FindPreset(presets[1..], id)
  }

  /** `presets.some((p) => p.name === name)`. */
  predicate HasName(presets: seq<Preset>, name: string) {
    exists i :: 0 <= i < |presets| && presets[i].name == name
  }

  /** `presets.some((p) => p.id !== id && p.name === name)`. */
  predicate NameTakenByOther(presets: seq<Preset>, id: string, name: string) {
    exists i :: 0 <= i < |presets| && presets[i].id != id && presets[i].name == name
  }

  /** `prev.map((p) => p.id === id ? { ...p, name } : p)`. */
  function RenamePresets(presets: seq<Preset>, id: string, name: string): seq<Preset> {
    seq(|presets|, i requires 0 <= i < |presets| =>
      if presets[i].id == id then presets[i].(name := name) else presets[i])
  }

  function KeepsOtherIds(id: string): Preset -> bool {
    (p: Preset) => p.id != id
  }

  /** `prev.filter((p) => p.id !== id)`. */
  function DeletePresets(presets: seq<Preset>, id: string): seq<Preset> {
    Seqs.Filter(presets, KeepsOtherIds(id))
  }

  /** `{ ...row, [field]: value }`. */
  function ApplyEdit(row: EditingRow, edit: RowEdit): EditingRow {
    match edit
    case SetDate(d) => row.(date := d)
    case SetStore(s) => row.(store := s)
    case SetPrice(p) => row.(price := p)
  }

  /** An extracted transaction as a table row. */
  function ToEditing(t: Row): EditingRow {
    EditingRow(t.date, t.store, Num(t.price))
  }

  /** `handleReset` on a state. */
  function Reset(s: UploaderState): UploaderState {
    s.(parsedData := [], csvText := "", currentMapping := None)
  }

  /** The state while the submission loop of `handleSaveClick` has carried out a run over
      `total` groups that ended with result `r`: `progress` counts the saved groups, and a
      run that paused at least once has dropped `isWaiting` and left `waitTime` at 0. */
  function Submitted(s: UploaderState, total: nat, r: RunResult): UploaderState {
    s.(isSaving := true, progress := Progress(r.current, total),
       isWaiting := if r.waits > 0 then false else s.isWaiting,
       waitTime := if r.waits > 0 then 0 else s.waitTime)
  }

  /** The completion branch of `handleSaveClick`: when every group is saved, a new mapping
      (no preset selected) opens the preset dialog, otherwise the table is reset; saving
      ends in every case. */
  function Finish(s: UploaderState, total: nat): UploaderState {
    var done := s.(isSaving := false);
    if s.progress.current != total then done
    else if s.selectedPresetId == "" && s.currentMapping.Some? then done.(showPresetSaveModal := true)
    else Reset(done)
  }

  /** The state `handleSaveClick` leaves after a run over `total` groups that ended with
      result `r`, starting from `s` with headers available. */
  function AfterSave(s: UploaderState, total: nat, r: RunResult): UploaderState {
    Finish(Submitted(s, total, r), total)
  }

  // ---------------------------------------------------------------------------
  // Properties of the specification functions

  /** `find` returns the first preset with the id, and nothing when there is none. */
  lemma {:induction false} FindPresetFirst(presets: seq<Preset>, id: string)
    ensures FindPreset(presets, id).None? <==> forall i :: 0 <= i < |presets| ==> presets[i].id != id
    ensures FindPreset(presets, id).Some? ==>
      exists i :: && 0 <= i < |presets| && presets[i] == FindPreset(presets, id).value
                  && presets[i].id == id && (forall j :: 0 <= j < i ==> presets[j].id != id)
  {
    if presets != [] && presets[0].id != id {
      var rest := presets[1..];
      FindPresetFirst(rest, id);
      if FindPreset(rest, id).Some? {
        var i :| && 0 <= i < |rest| && rest[i] == FindPreset(rest, id).value
                 && rest[i].id == id && (forall j :: 0 <= j < i ==> rest[j].id != id);
        assert presets[i + 1] == rest[i];
        forall j | 0 <= j < i + 1 ensures presets[j].id != id {
          if j > 0 {
            assert presets[j] == rest[j - 1];
          }
        }
      } else {
        forall i | 0 <= i < |presets| ensures presets[i].id != id {
          if i > 0 {
            assert presets[i] == rest[i - 1];
          }
        }
      }
    }
  }

  /** Renaming changes only the name of the presets with that id: the list keeps its
      length, its order, every id and mapping, and every other preset. */
  lemma {:induction false} RenameChangesOnlyTarget(presets: seq<Preset>, id: string, name: string)
    ensures var r := RenamePresets(presets, id, name);
      && |r| == |presets|
      && (forall i :: 0 <= i < |r| ==>
            r[i].id == presets[i].id && r[i].userId == presets[i].userId && r[i].mapping == presets[i].mapping)
      && (forall i :: 0 <= i < |r| ==> r[i].name == if presets[i].id == id then name else presets[i].name)
  {
  }

  /** After a rename that passed the duplicate check, only the renamed preset carries the
      new name. */
  lemma {:induction false} RenameLeavesNameUnique(presets: seq<Preset>, id: string, name: string)
    requires !NameTakenByOther(presets, id, name)
    ensures forall i :: 0 <= i < |RenamePresets(presets, id, name)| ==>
      RenamePresets(presets, id, name)[i].name == name ==> RenamePresets(presets, id, name)[i].id == id
  {
    var r := RenamePresets(presets, id, name);
    forall i | 0 <= i < |r| && r[i].name == name ensures r[i].id == id {
    }
  }

  /** Deleting removes every preset with the id and keeps every other preset. */
  lemma {:induction false} DeleteRemovesExactly(presets: seq<Preset>, id: string)
    ensures forall p :: p in DeletePresets(presets, id) <==> p in presets && p.id != id
    ensures |DeletePresets(presets, id)| <= |presets|
  {
    Seqs.FilterMembers(presets, KeepsOtherIds(id));
  }

  /** Deleting a preset that is not in the list changes nothing. */
  lemma {:induction false} DeleteAbsentIsNoop(presets: seq<Preset>, id: string)
    requires forall i :: 0 <= i < |presets| ==> presets[i].id != id
    ensures DeletePresets(presets, id) == presets
  {
    Seqs.FilterAll(presets, KeepsOtherIds(id));
  }

  /** An edit changes exactly the edited field. */
  lemma {:induction false} EditChangesOneField(row: EditingRow, edit: RowEdit)
    ensures var r := ApplyEdit(row, edit);
      && (r.date == if edit.SetDate? then edit.date else row.date)
      && (r.store == if edit.SetStore? then edit.store else row.store)
      && (r.price == if edit.SetPrice? then edit.price else row.price)
  {
  }

  /** A run that stops short (an error, or no further answer) neither resets the table
      nor opens the preset dialog. */
  lemma {:induction false} UnfinishedSaveKeepsTable(s: UploaderState, total: nat, r: RunResult)
    requires r.current < total
    ensures AfterSave(s, total, r).parsedData == s.parsedData
    ensures AfterSave(s, total, r).showPresetSaveModal == s.showPresetSaveModal
    ensures AfterSave(s, total, r).progress == Progress(r.current, total)
  {
  }

  /** A table with no rows has no groups, so the save counts as complete at once. */
  lemma {:induction false} EmptyTableCompletes(responses: seq<SaveOutcome>)
    ensures MonthGroups(FinalData([])) == []
    ensures Run(0, 0, responses) == RunResult([], 0, false, 0)
  {
  }

  /** After a complete save, a new mapping (no preset selected) opens the preset dialog
      with the table kept; otherwise the table, text and mapping are cleared. */
  lemma {:induction false} CompletedSave(s: UploaderState, total: nat, r: RunResult)
    requires r.current == total
    ensures var a := AfterSave(s, total, r);
      if s.selectedPresetId == "" && s.currentMapping.Some? then
        a.showPresetSaveModal && a.parsedData == s.parsedData
      else
        a.parsedData == [] && a.csvText == "" && a.currentMapping.None? &&
        a.showPresetSaveModal == s.showPresetSaveModal
  {
  }

  // ---------------------------------------------------------------------------
  // The hook

  class CsvUploader {
    var csvText: string
    var isAnalyzing: bool
    var parsedData: seq<EditingRow>
    var isSaving: bool
    var isWaiting: bool
    var waitTime: nat
    var progress: Progress
    var presets: seq<Preset>
    var selectedPresetId: string
    var currentMapping: Option<CsvMapping>
    var showPresetSaveModal: bool
    var newPresetName: string
    var renameTarget: Option<PresetRef>
    var editPresetName: string
    var deleteTarget: Option<PresetRef>

    ghost function Snapshot(): UploaderState
      reads this
    {
      UploaderState(csvText, isAnalyzing, parsedData, isSaving, isWaiting, waitTime, progress,
                    presets, selectedPresetId, currentMapping, showPresetSaveModal, newPresetName,
                    renameTarget, editPresetName, deleteTarget)
    }

    /** The initial state, with the presets the mount effect loaded. */
    constructor(loaded: seq<Preset>)
      ensures Snapshot() == UploaderState("", false, [], false, false, 0, Progress(0, 0),
                                          loaded, "", None, false, "", None, "", None)
    {
      csvText := "";
      isAnalyzing := false;
      parsedData := [];
      isSaving := false;
      isWaiting := false;
      waitTime := 0;
      progress := Progress(0, 0);
      presets := loaded;
      selectedPresetId := "";
      currentMapping := None;
      showPresetSaveModal := false;
      newPresetName := "";
      renameTarget := None;
      editPresetName := "";
      deleteTarget := None;
    }

    /** `handleReset`: clears the table, the text and the mapping. */
    method HandleReset()
      modifies this
      ensures Snapshot() == Reset(old(Snapshot()))
    {
      parsedData := [];
      csvText := "";
      currentMapping := None;
    }

    /** `handleAnalyze`: with text loaded, asks for an analysis with the mapping of the
        selected preset (`request`, `Some(None)` when no preset matches); a non-empty
        result replaces the table and the current mapping, an empty or failed one changes
        nothing else. Without text nothing happens. */
    method HandleAnalyze(response: AnalyzeResponse) returns (request: Option<Option<CsvMapping>>)
      modifies this
      ensures old(csvText) == "" ==> request.None? && Snapshot() == old(Snapshot())
      ensures old(csvText) != "" ==>
        var found := FindPreset(old(presets), old(selectedPresetId));
        && request == Some(if found.Some? then Some(found.value.mapping) else None)
        && Snapshot() ==
             if response.Analyzed? && |response.transactions| > 0 then
               old(Snapshot()).(isAnalyzing := false,
                 parsedData := seq(|response.transactions|, i requires 0 <= i < |response.transactions| =>
                   ToEditing(response.transactions[i])),
                 currentMapping := Some(response.mapping))
             else old(Snapshot()).(isAnalyzing := false)
    {
      if csvText == "" {
        return None;
      }
      isAnalyzing := true;
      var preset := FindPreset(presets, selectedPresetId);
      request := Some(if preset.Some? then Some(preset.value.mapping) else None);
      if response.Analyzed? && |response.transactions| > 0 {
        var txs := response.transactions;
        parsedData := seq(|txs|, i requires 0 <= i < |txs| => ToEditing(txs[i]));
        currentMapping := Some(response.mapping);
      }
      isAnalyzing := false;
    }

    /** `handleSavePreset`: needs a non-blank trimmed name and a mapping. A name already
        in use is only warned about (`duplicateWarned`); with a signed-in user the record
        inserted (`draft`) carries the name as typed, untrimmed. When the store returns the
        new record it is appended to `presets`, the dialog closes and the table is reset;
        on an error, or with no record returned, nothing changes. */
    method HandleSavePreset(user: Option<string>, insert: InsertResult)
      returns (duplicateWarned: bool, draft: Option<PresetDraft>)
      modifies this
      ensures var trimmed := JsTrim(old(newPresetName));
        duplicateWarned <==> trimmed != "" && old(currentMapping).Some? && HasName(old(presets), trimmed)
      ensures draft.Some? <==> JsTrim(old(newPresetName)) != "" && old(currentMapping).Some? && user.Some?
      ensures draft.Some? ==> draft.value == PresetDraft(user.value, old(newPresetName), old(currentMapping).value)
      ensures draft.Some? && insert.Inserted? && |insert.records| > 0 ==>
        Snapshot() == Reset(old(Snapshot()).(presets := old(presets) + [insert.records[0]],
                                             showPresetSaveModal := false, newPresetName := ""))
      ensures !(draft.Some? && insert.Inserted? && |insert.records| > 0) ==> Snapshot() == old(Snapshot())
    {
      var trimmedName := JsTrim(newPresetName);
      if trimmedName == "" || currentMapping.None? {
        return false, None;
      }
      duplicateWarned := HasName(presets, trimmedName);
      if user.None? {
        return duplicateWarned, None;
      }
      draft := Some(PresetDraft(user.value, newPresetName, currentMapping.value));
      if insert.InsertFailed? {
        return;
      }
      if |insert.records| > 0 {
        AddSavedPreset(insert.records[0]);
      }
    }

    /** The success branch of `handleSavePreset`: appends the stored record, closes the
        dialog, clears the name and resets the table. */
    method AddSavedPreset(record: Preset)
      modifies this
      ensures Snapshot() == Reset(old(Snapshot()).(presets := old(presets) + [record],
                                                   showPresetSaveModal := false, newPresetName := ""))
    {
      presets := presets + [record];
      showPresetSaveModal := false;
      newPresetName := "";
      HandleReset();
    }

    /** `handleSkipPresetSave`: closes the dialog, clears the name and resets the table. */
    method HandleSkipPresetSave()
      modifies this
      ensures Snapshot() == Reset(old(Snapshot()).(showPresetSaveModal := false, newPresetName := ""))
    {
      showPresetSaveModal := false;
      newPresetName := "";
      HandleReset();
    }

    /** `openRenameModal`: the dialog starts with the current name. */
    method OpenRenameModal(id: string, currentName: string)
      modifies this
      ensures Snapshot() == old(Snapshot()).(renameTarget := Some(PresetRef(id, currentName)),
                                             editPresetName := currentName)
    {
      renameTarget := Some(PresetRef(id, currentName));
      editPresetName := currentName;
    }

    /** `closeRenameModal`. */
    method CloseRenameModal()
      modifies this
      ensures Snapshot() == old(Snapshot()).(renameTarget := None, editPresetName := "")
    {
      renameTarget := None;
      editPresetName := "";
    }

    /** `executeRenamePreset`: a blank or unchanged trimmed name just closes the dialog; a
        name another preset already has is refused with the dialog left open; otherwise
        the store is asked to rename (`update`), and only when it succeeds are the presets
        with that id renamed to the trimmed name and the dialog closed. */
    method ExecuteRenamePreset(storeOk: bool) returns (update: Option<PresetRef>)
      modifies this
      ensures old(renameTarget).None? ==> update.None? && Snapshot() == old(Snapshot())
      ensures old(renameTarget).Some? ==>
        var target := old(renameTarget).value;
        var trimmed := JsTrim(old(editPresetName));
        if trimmed == "" || trimmed == target.name then
          update.None? && Snapshot() == old(Snapshot()).(renameTarget := None, editPresetName := "")
        else if NameTakenByOther(old(presets), target.id, trimmed) then
          update.None? && Snapshot() == old(Snapshot())
        else
          && update == Some(PresetRef(target.id, trimmed))
          && Snapshot() ==
               if storeOk then
                 old(Snapshot()).(presets := RenamePresets(old(presets), target.id, trimmed),
                                  renameTarget := None, editPresetName := "")
               else old(Snapshot())
    {
      if renameTarget.None? {
        return None;
      }
      var target := renameTarget.value;
      var trimmedName := JsTrim(editPresetName);
      if trimmedName == "" || trimmedName == target.name {
        CloseRenameModal();
        return None;
      }
      if NameTakenByOther(presets, target.id, trimmedName) {
        return None;
      }
      update := Some(PresetRef(target.id, trimmedName));
      if !storeOk {
        return;
      }
      presets := RenamePresets(presets, target.id, trimmedName);
      CloseRenameModal();
    }

    /** `openDeleteModal`. */
    method OpenDeleteModal(id: string, name: string)
      modifies this
      ensures Snapshot() == old(Snapshot()).(deleteTarget := Some(PresetRef(id, name)))
    {
      deleteTarget := Some(PresetRef(id, name));
    }

    /** `closeDeleteModal`. */
    method CloseDeleteModal()
      modifies this
      ensures Snapshot() == old(Snapshot()).(deleteTarget := None)
    {
      deleteTarget := None;
    }

    /** `executeDeletePreset`: asks the store to delete the target (`deleted`); when it
        succeeds every preset with that id is removed, the selection is cleared if it was
        that preset, and the dialog closes. On a store error nothing changes. */
    method ExecuteDeletePreset(storeOk: bool) returns (deleted: Option<string>)
      modifies this
      ensures old(deleteTarget).None? ==> deleted.None? && Snapshot() == old(Snapshot())
      ensures old(deleteTarget).Some? ==>
        var id := old(deleteTarget).value.id;
        && deleted == Some(id)
        && Snapshot() ==
             if storeOk then
               old(Snapshot()).(presets := DeletePresets(old(presets), id),
                                selectedPresetId := if old(selectedPresetId) == id then "" else old(selectedPresetId),
                                deleteTarget := None)
             else old(Snapshot())
    {
      if deleteTarget.None? {
        return None;
      }
      var id := deleteTarget.value.id;
      deleted := Some(id);
      if !storeOk {
        return;
      }
      presets := DeletePresets(presets, id);
      if selectedPresetId == id {
        selectedPresetId := "";
      }
      CloseDeleteModal();
    }

    /** `handleDataChange(index, field, value)`: row `index` gets the new value in that
        field; every other row, and the length, stay as they were. */
    method HandleDataChange(index: nat, edit: RowEdit)
      requires index < |parsedData|
      modifies this
      ensures Snapshot() == old(Snapshot()).(parsedData := old(parsedData)[index := ApplyEdit(old(parsedData)[index], edit)])
    {
      var newData := parsedData;
      newData := newData[index := ApplyEdit(newData[index], edit)];
      parsedData := newData;
    }

    /** `handleDeleteRow(index)`: drops row `index` and keeps the others in order. */
    method HandleDeleteRow(index: int)
      modifies this
      ensures Snapshot() == old(Snapshot()).(parsedData := Seqs.RemoveAt(old(parsedData), index))
    {
      parsedData := Seqs.RemoveAt(parsedData, index);
    }

    /** The rate-limit pause: `isWaiting` is raised while `waitTime` counts down from 90
        to 0, one one-second tick per value (91 ticks); then `isWaiting` drops and
        `waitTime` is left at 0. */
    method WaitOutRateLimit() returns (ticks: nat)
      modifies this
      ensures ticks == 91
      ensures Snapshot() == old(Snapshot()).(isWaiting := false, waitTime := 0)
    {
      isWaiting := true;
      ticks := 0;
      for i := 91 downto 0
        invariant ticks == 91 - i
        invariant Snapshot() == old(Snapshot()).(isWaiting := true,
                                                 waitTime := if i == 91 then old(waitTime) else i)
      {
        waitTime := i;
        ticks := ticks + 1;
      }
      isWaiting := false;
    }

    /** The submission loop of `handleSaveClick`: sends the group of `months[currentIdx]`
        until every month is saved, an attempt fails, or the endpoint gives no further
        answer; a 429 waits out the rate limit and resends the same month. The attempts
        follow `Run` exactly, and `progress` ends at the number of months saved. */
    method SubmitMonths(months: seq<string>, grouped: map<string, seq<Row>>, responses: seq<SaveOutcome>)
      returns (sent: seq<seq<Row>>)
      requires forall k :: 0 <= k < |months| ==> months[k] in grouped
      modifies this
      ensures var r := Run(|months|, 0, responses);
        && |sent| == |r.sent|
        && (forall j :: 0 <= j < |sent| ==> r.sent[j] < |months| && sent[j] == grouped[months[r.sent[j]]])
        && Snapshot() == old(Snapshot()).(progress := Progress(r.current, |months|),
                           isWaiting := if r.waits > 0 then false else old(isWaiting),
                           waitTime := if r.waits > 0 then 0 else old(waitTime))
    {
      var total := |months|;
      progress := Progress(0, total);
      var currentIdx: nat := 0;
      var attempt: nat := 0;
      ghost var sentIdx: seq<nat> := [];
      ghost var waits: nat := 0;
      ghost var run := Run(total, 0, responses);
      ghost var failed := false;
      assert responses[0..] == responses;
      sent := [];
      while currentIdx < total && attempt < |responses|
        invariant currentIdx <= total && attempt <= |responses|
        invariant run == Resume(sentIdx, waits, Run(total, currentIdx, responses[attempt..]))
        invariant SentGroups(months, grouped, sent, sentIdx)
        invariant Snapshot() == old(Snapshot()).(progress := Progress(currentIdx, total),
                                  isWaiting := if waits > 0 then false else old(isWaiting),
                                  waitTime := if waits > 0 then 0 else old(waitTime))
        decreases |responses| - attempt
      {
        var dataToSend := grouped[months[currentIdx]];
        var outcome := responses[attempt];
        SentGroupsAppend(months, grouped, sent, sentIdx, currentIdx);
        sent := sent + [dataToSend];
        if outcome == Failed {
          RunStopsAtFailure(total, responses, sentIdx, waits, currentIdx, attempt);
          sentIdx := sentIdx + [currentIdx];
          failed := true;
          break;
        }
        RunAdvance(total, responses, sentIdx, waits, currentIdx, attempt);
        sentIdx := sentIdx + [currentIdx];
        attempt := attempt + 1;
        currentIdx := AfterAttempt(outcome, currentIdx, total);
        if outcome == RateLimited {
          waits := waits + 1;
        }
      }
      if !failed {
        RunDone(total, responses, sentIdx, waits, currentIdx, attempt);
      }
      assert run == RunResult(sentIdx, currentIdx, failed, waits);
    }

    /** Attempt `j` sent the rows of the month at position `idx[j]`. */
    static ghost predicate SentGroups(months: seq<string>, grouped: map<string, seq<Row>>,
                                      sent: seq<seq<Row>>, idx: seq<nat>)
    {
      && |sent| == |idx|
      && forall j :: 0 <= j < |sent| ==>
           idx[j] < |months| && months[idx[j]] in grouped && sent[j] == grouped[months[idx[j]]]
    }

    static lemma {:induction false} SentGroupsAppend(months: seq<string>, grouped: map<string, seq<Row>>,
                                                     sent: seq<seq<Row>>, idx: seq<nat>, k: nat)
      requires SentGroups(months, grouped, sent, idx)
      requires k < |months| && months[k] in grouped
      ensures SentGroups(months, grouped, sent + [grouped[months[k]]], idx + [k])
    {
    }

    /** What one answered attempt does: a save moves `progress` on to the next month; a
        429 waits out the rate limit and leaves the month to be sent again. */
    method AfterAttempt(outcome: SaveOutcome, currentIdx: nat, total: nat) returns (nextIdx: nat)
      requires outcome != Failed
      modifies this
      ensures nextIdx == if outcome == Saved then currentIdx + 1 else currentIdx
      ensures outcome == Saved ==> Snapshot() == old(Snapshot()).(progress := Progress(nextIdx, total))
      ensures outcome == RateLimited ==> Snapshot() == old(Snapshot()).(isWaiting := false, waitTime := 0)
    {
      if outcome == Saved {
        nextIdx := currentIdx + 1;
        progress := Progress(nextIdx, total);
      } else {
        var _ := WaitOutRateLimit();
        nextIdx := currentIdx;
      }
    }

    /** `handleSaveClick`, given the header check and the answers the save endpoint gives
        to successive attempts. Without headers nothing happens. Otherwise the rows are
        coerced, grouped by month in first-seen order and sent as `Run` orders the
        attempts (`sent` lists the rows of each attempt); the final state is `AfterSave`. */
    method HandleSaveClick(headers: ApiConfig.HeaderCheck, responses: seq<SaveOutcome>)
      returns (sent: seq<seq<Row>>)
      modifies this
      ensures !headers.Headers? ==> sent == [] && Snapshot() == old(Snapshot())
      ensures headers.Headers? ==>
        var groups := MonthGroups(FinalData(old(parsedData)));
        var r := Run(|groups|, 0, responses);
        && |sent| == |r.sent|
        && (forall j :: 0 <= j < |sent| ==> r.sent[j] < |groups| && sent[j] == groups[r.sent[j]])
        && Snapshot() == AfterSave(old(Snapshot()), |groups|, r)
    {
      if !headers.Headers? {
        return [];
      }
      isSaving := true;
      progress := Progress(0, 0);
      var finalData := FinalData(parsedData);
      var months, groupedByMonth := GroupByMonth(finalData);
      ghost var groups := MonthGroups(finalData);
      assert |groups| == |months|;
      assert forall i :: 0 <= i < |months| ==> groupedByMonth[months[i]] == groups[i];
      ghost var r := Run(|months|, 0, responses);
      sent := SubmitMonths(months, groupedByMonth, responses);
      assert Snapshot() == Submitted(old(Snapshot()), |months|, r);
      FinishSave(|months|);
    }

    /** The end of `handleSaveClick`: the completion branch, then `isSaving` drops. */
    method FinishSave(total: nat)
      modifies this
      ensures Snapshot() == Finish(old(Snapshot()), total)
    {
      if progress.current == total {
        if selectedPresetId == "" && currentMapping.Some? {
          showPresetSaveModal := true;
        } else {
          HandleReset();
        }
      }
      isSaving := false;
    }
  }
}
