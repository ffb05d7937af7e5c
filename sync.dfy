/** The orchestration of App.tsx: the deck held by the app, the three places it is saved to
    (the browser's local snapshot, a connected CSV file and a Pantry cloud basket), the startup
    load, and the file and cloud handlers. The debounced save timers are modelled as one pending
    write per sink, holding the deck it will write; a timer firing is a method of its own. What
    the browser, the file system and the cloud answer is given as parameters. */
module Sync {
  import opened Types
  import CsvService
  import Merge
  import Deck

  /** A file handle picked with the File System Access API. */
  datatype FileHandle = FileHandle(name: string)

  /** `CloudConfig`: the Pantry id the deck is saved under. */
  datatype CloudConfig = CloudConfig(pantryId: string)

  /** A save the file timer will perform: the deck, written as CSV to the handle. */
  datatype FileWrite = FileWrite(handle: FileHandle, deck: seq<Flashcard>)

  /** A save the cloud timer will perform: `updateDeck(pantryId, deck)`. */
  datatype CloudPush = CloudPush(pantryId: string, deck: seq<Flashcard>)

  /** What has been sent out of the app: a text written to a file, or a deck posted to a basket. */
  datatype Sent = FileSaved(handle: FileHandle, text: string) | CloudSaved(pantryId: string, deck: seq<Flashcard>)

  /** The cloud configuration kept in local storage: none, a text that is not a readable
      configuration, or a configuration with its Pantry id (`""` when the id is missing). */
  datatype StoredConfig = NoConfig | Unreadable | Saved(pantryId: string)

  /** What the file picker gives: no File System Access API, a cancelled or failed pick (or a file
      that could not be read), or a handle and the text of its file. */
  datatype FilePick = Unsupported | PickFailed | Picked(handle: FileHandle, text: string)

  /** The file effect: a save is scheduled exactly when a handle is connected, and it writes the
      current deck. */
  function FileSchedule(fileHandle: Option<FileHandle>, cards: seq<Flashcard>): (r: Option<FileWrite>)
    ensures r.Some? <==> fileHandle.Some?
    ensures r.Some? ==> r.value.handle == fileHandle.value && r.value.deck == cards
  {
    match fileHandle
    case None => None
    case Some(h) => Some(FileWrite(h, cards))
  }

  /** The cloud effect: a push is scheduled exactly when a configuration is set and the deck is
      not empty, and it posts the current deck. */
  function CloudSchedule(cloudConfig: Option<CloudConfig>, cards: seq<Flashcard>): (r: Option<CloudPush>)
    ensures r.Some? <==> cloudConfig.Some? && cards != []
    ensures r.Some? ==> r.value.pantryId == cloudConfig.value.pantryId && r.value.deck == cards
  {
    if cloudConfig.None? || cards == [] then None
    else Some(CloudPush(cloudConfig.value.pantryId, cards))
  }

  /** An empty deck is never pushed by the automatic save. */
  lemma AutoSaveNeverEmpties(cloudConfig: Option<CloudConfig>, cards: seq<Flashcard>)
    ensures CloudSchedule(cloudConfig, cards).Some? ==> CloudSchedule(cloudConfig, cards).value.deck != []
  {
  }

  /** The deck the startup load settles on before the cloud: the local snapshot when it holds
      cards, otherwise the bundled CSV database parsed (when it could be fetched). */
  function InitialCards(saved: seq<Flashcard>, bundled: Option<string>, freshId: nat -> string, clock: nat -> nat): (r: seq<Flashcard>)
    ensures saved != [] ==> r == saved
    ensures saved == [] && bundled.None? ==> r == []
    ensures saved == [] && bundled.Some? ==> r == CsvService.Parse(bundled.value, freshId, clock)
  {
    if saved != [] then saved
    else if bundled.Some? then CsvService.Parse(bundled.value, freshId, clock)
    else []
  }

  /** The configuration the startup load arms: the stored one, when it is readable and its
      Pantry id is not empty. */
  function StartupConfig(stored: StoredConfig): (r: Option<CloudConfig>)
    ensures r.Some? <==> stored.Saved? && stored.pantryId != ""
    ensures r.Some? ==> r.value.pantryId == stored.pantryId
  {
    if stored.Saved? && stored.pantryId != "" then Some(CloudConfig(stored.pantryId)) else None
  }

  /** The first part of the startup load: the local snapshot, or else the bundled CSV parsed. */
  method LoadInitial(saved: seq<Flashcard>, bundled: Option<string>, freshId: nat -> string, clock: nat -> nat)
    returns (initial: seq<Flashcard>)
    ensures initial == InitialCards(saved, bundled, freshId, clock)
  {
    if saved != [] {
      initial := saved;
    } else if bundled.Some? {
      initial := CsvService.ParseCsv(bundled.value, freshId, clock);
    } else {
      initial := [];
    }
  }

  class App {
    var cards: seq<Flashcard>
    var fileHandle: Option<FileHandle>
    var cloudConfig: Option<CloudConfig>
    /** The deck as stored in local storage (`lumina_cards_v1`). */
    var snapshot: seq<Flashcard>
    /** The cloud configuration as stored in local storage (`lumina_cloud_config`). */
    var storedConfig: StoredConfig
    var pendingFile: Option<FileWrite>
    var pendingCloud: Option<CloudPush>
    /** Everything written to a file or posted to the cloud so far, oldest first. */
    var sent: seq<Sent>

    /** Once the effects have run: the local snapshot is the deck, a pending file save needs a
        handle, a pending cloud push needs a configuration and a non-empty deck, every pending
        write carries the current deck, and an armed configuration is the stored one. */
    ghost predicate Valid()
      reads this
    {
      && snapshot == cards
      && (pendingFile.Some? ==> fileHandle.Some? && pendingFile.value == FileWrite(fileHandle.value, cards))
      && (pendingCloud.Some? ==> cloudConfig.Some? && cards != []
                                 && pendingCloud.value == CloudPush(cloudConfig.value.pantryId, cards))
      && (cloudConfig.Some? ==> storedConfig == Saved(cloudConfig.value.pantryId))
    }

    /** The startup load: the local snapshot, else the bundled CSV, is the deck; then, with a
        stored Pantry id, the cloud deck is merged in (when it has cards) and only after that
        pull is the configuration armed, so the first automatic push already carries the
        merged deck. `getDeck` never fails: a failed pull gives an empty `cloudCards`. */
    constructor Init(saved: seq<Flashcard>, bundled: Option<string>, stored: StoredConfig,
                     cloudCards: seq<Flashcard>, freshId: nat -> string, clock: nat -> nat)
      ensures Valid()
      ensures StartupConfig(stored).Some? && cloudCards != [] ==>
        cards == Merge.Merged(InitialCards(saved, bundled, freshId, clock), cloudCards)
      ensures StartupConfig(stored).None? || cloudCards == [] ==> cards == InitialCards(saved, bundled, freshId, clock)
      ensures cloudConfig == StartupConfig(stored) && storedConfig == stored
      ensures fileHandle == None && pendingFile == None && sent == []
      ensures pendingCloud == CloudSchedule(cloudConfig, cards)
    {
      var initial := LoadInitial(saved, bundled, freshId, clock);
      var deck := initial;
      var config := StartupConfig(stored);
      if config.Some? && cloudCards != [] {
        deck := Merge.PerformMerge(initial, cloudCards);
      }
      cards := deck;
      snapshot := deck;
      fileHandle := None;
      pendingFile := None;
      storedConfig := stored;
      cloudConfig := config;
      pendingCloud := CloudSchedule(config, deck);
      sent := [];
    }

    /** `setCards` followed by the effects that depend on the deck: the snapshot is written, and
        the file and cloud saves are scheduled afresh with the new deck. */
    method SetCards(newCards: seq<Flashcard>)
      requires Valid()
      modifies this`cards, this`snapshot, this`pendingFile, this`pendingCloud
      ensures Valid()
      ensures cards == newCards && snapshot == newCards
      ensures pendingFile == FileSchedule(fileHandle, newCards)
      ensures pendingCloud == CloudSchedule(cloudConfig, newCards)
    {
      cards := newCards;
      snapshot := newCards;
      pendingFile := FileSchedule(fileHandle, newCards);
      pendingCloud := CloudSchedule(cloudConfig, newCards);
    }

    /** `performMerge(incoming)` on the current deck. */
    method PerformMerge(incoming: seq<Flashcard>)
      requires Valid()
      modifies this`cards, this`snapshot, this`pendingFile, this`pendingCloud
      ensures Valid()
      ensures cards == Merge.Merged(old(cards), incoming) && UniqueIds(cards) && NewestFirst(cards)
      ensures pendingFile == FileSchedule(fileHandle, cards)
      ensures pendingCloud == CloudSchedule(cloudConfig, cards)
    {
      var merged := Merge.PerformMerge(cards, incoming);
      SetCards(merged);
    }

    /** `handleAddCard`, with `crypto.randomUUID()` and `Date.now()` given as `id` and `now`. */
    method AddCard(id: string, entry: WordEntry, definition: string, example: string,
                   partOfSpeech: string, now: nat)
      requires Valid()
      modifies this`cards, this`snapshot, this`pendingFile, this`pendingCloud
      ensures Valid()
      ensures cards == Deck.AddCard(old(cards), id, entry, definition, example, partOfSpeech, now)
      ensures pendingFile == FileSchedule(fileHandle, cards)
      ensures pendingCloud == CloudSchedule(cloudConfig, cards) && pendingCloud.Some? == cloudConfig.Some?
    {
      SetCards(Deck.AddCard(cards, id, entry, definition, example, partOfSpeech, now));
    }

    /** `handleUpdateStatus`, stamped with `now`. */
    method UpdateStatus(id: string, status: Status, now: nat)
      requires Valid()
      modifies this`cards, this`snapshot, this`pendingFile, this`pendingCloud
      ensures Valid()
      ensures cards == Deck.UpdateStatus(old(cards), id, status, now)
      ensures pendingFile == FileSchedule(fileHandle, cards)
      ensures pendingCloud == CloudSchedule(cloudConfig, cards)
    {
      SetCards(Deck.UpdateStatus(cards, id, status, now));
    }

    /** `handleDeleteCard`. Deleting the last card leaves no cloud push scheduled, so the basket
        keeps the cards it had. */
    method DeleteCard(id: string)
      requires Valid()
      modifies this`cards, this`snapshot, this`pendingFile, this`pendingCloud
      ensures Valid()
      ensures cards == Deck.DeleteCard(old(cards), id)
      ensures pendingFile == FileSchedule(fileHandle, cards)
      ensures pendingCloud == CloudSchedule(cloudConfig, cards)
      ensures cards == [] ==> pendingCloud == None
    {
      SetCards(Deck.DeleteCard(cards, id));
    }

    /** The file timer fires: the pending deck is written, as CSV, to its file. */
    method FileTimerFires()
      requires Valid()
      modifies this`pendingFile, this`sent
      ensures Valid()
      ensures old(pendingFile).None? ==> sent == old(sent) && pendingFile == None
      ensures old(pendingFile).Some? ==>
        sent == old(sent) + [FileSaved(old(pendingFile).value.handle, CsvService.GenerateCsv(cards))]
      ensures pendingFile == None
    {
      if pendingFile.Some? {
        sent := sent + [FileSaved(pendingFile.value.handle, CsvService.GenerateCsv(pendingFile.value.deck))];
        pendingFile := None;
      }
    }

    /** The cloud timer fires: the pending deck is posted to its basket. */
    method CloudTimerFires()
      requires Valid()
      modifies this`pendingCloud, this`sent
      ensures Valid()
      ensures old(pendingCloud).None? ==> sent == old(sent)
      ensures old(pendingCloud).Some? ==> sent == old(sent) + [CloudSaved(old(pendingCloud).value.pantryId, cards)]
      ensures old(pendingCloud).Some? ==> cards != []
      ensures pendingCloud == None
    {
      if pendingCloud.Some? {
        sent := sent + [CloudSaved(pendingCloud.value.pantryId, pendingCloud.value.deck)];
        pendingCloud := None;
      }
    }

    /** `handleConnectFile`: without the API, or when the pick or the read fails, nothing
        changes; otherwise the picked file is loaded and connected. */
    method ConnectFile(pick: FilePick, freshId: nat -> string, clock: nat -> nat)
      requires Valid()
      modifies this`cards, this`snapshot, this`pendingFile, this`pendingCloud, this`fileHandle
      ensures Valid()
      ensures !pick.Picked? ==> cards == old(cards) && fileHandle == old(fileHandle)
                                && pendingFile == old(pendingFile) && pendingCloud == old(pendingCloud)
      ensures pick.Picked? && CsvService.Parse(pick.text, freshId, clock) != [] ==>
        cards == Merge.Merged(old(cards), CsvService.Parse(pick.text, freshId, clock))
        && pendingCloud == CloudSchedule(cloudConfig, cards)
      ensures pick.Picked? && CsvService.Parse(pick.text, freshId, clock) == [] ==>
        cards == old(cards) && pendingCloud == old(pendingCloud)
      ensures pick.Picked? ==> fileHandle == Some(pick.handle) && pendingFile == Some(FileWrite(pick.handle, cards))
    {
      match pick
      case Picked(handle, text) => LoadFile(handle, text, freshId, clock);
      case _ =>
    }

    /** A picked file: its cards (when there are any) are merged in, and the handle is connected,
        which schedules a save of the deck to it. */
    method LoadFile(handle: FileHandle, text: string, freshId: nat -> string, clock: nat -> nat)
      requires Valid()
      modifies this`cards, this`snapshot, this`pendingFile, this`pendingCloud, this`fileHandle
      ensures Valid()
      ensures CsvService.Parse(text, freshId, clock) != [] ==>
        cards == Merge.Merged(old(cards), CsvService.Parse(text, freshId, clock))
        && pendingCloud == CloudSchedule(cloudConfig, cards)
      ensures CsvService.Parse(text, freshId, clock) == [] ==> cards == old(cards) && pendingCloud == old(pendingCloud)
      ensures fileHandle == Some(handle) && pendingFile == Some(FileWrite(handle, cards))
    {
      var loaded := CsvService.ParseCsv(text, freshId, clock);
      if loaded != [] {
        PerformMerge(loaded);
      }
      AttachFile(handle);
    }

    /** `setFileHandle(handle)`, followed by the file effect. */
    method AttachFile(handle: FileHandle)
      requires Valid()
      modifies this`fileHandle, this`pendingFile
      ensures Valid()
      ensures fileHandle == Some(handle) && pendingFile == Some(FileWrite(handle, cards))
    {
      fileHandle := Some(handle);
      pendingFile := FileSchedule(fileHandle, cards);
    }

    /** `handleManualFileSave`: with a handle the deck is written at once; without one nothing
        happens. */
    method ManualFileSave()
      requires Valid()
      modifies this`sent
      ensures Valid()
      ensures fileHandle.None? ==> sent == old(sent)
      ensures fileHandle.Some? ==> sent == old(sent) + [FileSaved(fileHandle.value, CsvService.GenerateCsv(cards))]
    {
      if fileHandle.Some? {
        sent := sent + [FileSaved(fileHandle.value, CsvService.GenerateCsv(cards))];
      }
    }

    /** `handleExportCSV`: the text of the downloaded file. */
    method ExportCsv() returns (text: string)
      ensures text == CsvService.GenerateCsv(cards)
      ensures cards == [] ==> text == CsvService.Join(CsvService.Header(), ',')
    {
      text := CsvService.GenerateCsv(cards);
    }

    /** `handleImportCSV`: a file with no valid card is refused (the handler throws) and nothing
        changes; otherwise its cards are merged in. */
    method ImportCsv(text: string, freshId: nat -> string, clock: nat -> nat) returns (ok: bool)
      requires Valid()
      modifies this`cards, this`snapshot, this`pendingFile, this`pendingCloud
      ensures Valid()
      ensures ok <==> CsvService.Parse(text, freshId, clock) != []
      ensures !ok ==> cards == old(cards) && pendingFile == old(pendingFile) && pendingCloud == old(pendingCloud)
      ensures ok ==> cards == Merge.Merged(old(cards), CsvService.Parse(text, freshId, clock))
                     && pendingFile == FileSchedule(fileHandle, cards)
                     && pendingCloud == CloudSchedule(cloudConfig, cards)
    {
      var imported := CsvService.ParseCsv(text, freshId, clock);
      if imported == [] {
        return false;
      }
      PerformMerge(imported);
      ok := true;
    }

    /** `handleConnectCloud`: the Pantry id is validated first, and a failed validation (the
        handler throws) changes nothing. Otherwise the basket's cards (when there are any) are
        merged in, and then the configuration is armed and stored. */
    method ConnectCloud(pantryId: string, valid: bool, cloudCards: seq<Flashcard>) returns (ok: bool)
      requires Valid()
      modifies this`cards, this`snapshot, this`pendingFile, this`pendingCloud, this`cloudConfig, this`storedConfig
      ensures Valid()
      ensures ok == valid
      ensures !valid ==> cards == old(cards) && cloudConfig == old(cloudConfig) && storedConfig == old(storedConfig)
                         && pendingFile == old(pendingFile) && pendingCloud == old(pendingCloud)
      ensures valid && cloudCards != [] ==>
        cards == Merge.Merged(old(cards), cloudCards) && pendingFile == FileSchedule(fileHandle, cards)
      ensures valid && cloudCards == [] ==> cards == old(cards) && pendingFile == old(pendingFile)
      ensures valid ==> cloudConfig == Some(CloudConfig(pantryId)) && storedConfig == Saved(pantryId)
      ensures valid ==> pendingCloud == CloudSchedule(cloudConfig, cards)
    {
      if valid {
        LinkCloud(pantryId, cloudCards);
      }
      ok := valid;
    }

    /** A validated Pantry id: the basket's cards (when there are any) are merged in, and then
        the configuration is armed and stored. */
    method LinkCloud(pantryId: string, cloudCards: seq<Flashcard>)
      requires Valid()
      modifies this`cards, this`snapshot, this`pendingFile, this`pendingCloud, this`cloudConfig, this`storedConfig
      ensures Valid()
      ensures cloudCards != [] ==>
        cards == Merge.Merged(old(cards), cloudCards) && pendingFile == FileSchedule(fileHandle, cards)
      ensures cloudCards == [] ==> cards == old(cards) && pendingFile == old(pendingFile)
      ensures cloudConfig == Some(CloudConfig(pantryId)) && storedConfig == Saved(pantryId)
      ensures pendingCloud == CloudSchedule(cloudConfig, cards)
    {
      if cloudCards != [] {
        PerformMerge(cloudCards);
      }
      ArmCloud(pantryId);
    }

    /** `setCloudConfig({ pantryId })` and its storage, followed by the cloud effect. */
    method ArmCloud(pantryId: string)
      requires Valid()
      modifies this`cloudConfig, this`storedConfig, this`pendingCloud
      ensures Valid()
      ensures cloudConfig == Some(CloudConfig(pantryId)) && storedConfig == Saved(pantryId)
      ensures pendingCloud == CloudSchedule(cloudConfig, cards)
    {
      cloudConfig := Some(CloudConfig(pantryId));
      storedConfig := Saved(pantryId);
      pendingCloud := CloudSchedule(cloudConfig, cards);
    }

    /** `handleDisconnectCloud`: the configuration is cleared and forgotten, a pending push is
        cancelled, and the deck stays as it is. */
    method DisconnectCloud()
      requires Valid()
      modifies this`cloudConfig, this`storedConfig, this`pendingCloud
      ensures Valid()
      ensures cloudConfig == None && storedConfig == NoConfig && pendingCloud == None
    {
      cloudConfig := None;
      storedConfig := NoConfig;
      pendingCloud := None;
    }

    /** `handleCloudPull`: with a configuration, the basket's cards (when there are any) are
        merged in; without one nothing happens. */
    method CloudPull(cloudCards: seq<Flashcard>)
      requires Valid()
      modifies this`cards, this`snapshot, this`pendingFile, this`pendingCloud
      ensures Valid()
      ensures cloudConfig.Some? && cloudCards != [] ==>
        cards == Merge.Merged(old(cards), cloudCards)
        && pendingFile == FileSchedule(fileHandle, cards) && pendingCloud == CloudSchedule(cloudConfig, cards)
      ensures cloudConfig.None? || cloudCards == [] ==>
        cards == old(cards) && pendingFile == old(pendingFile) && pendingCloud == old(pendingCloud)
    {
      if cloudConfig.None? || cloudCards == [] {
        return;
      }
      PerformMerge(cloudCards);
    }

    /** `handleCloudPush`: with a configuration the deck is posted at once, even an empty one (the
        automatic save skips an empty deck, this handler does not). */
    method ManualCloudPush()
      requires Valid()
      modifies this`sent
      ensures Valid()
      ensures cloudConfig.None? ==> sent == old(sent)
      ensures cloudConfig.Some? ==> sent == old(sent) + [CloudSaved(cloudConfig.value.pantryId, cards)]
    {
      if cloudConfig.Some? {
        sent := sent + [CloudSaved(cloudConfig.value.pantryId, cards)];
      }
    }
  }
}
