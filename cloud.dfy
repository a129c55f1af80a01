/**
 * The cloud backup providers as objects (`GoogleDriveSync`, `GitHubSync`)
 * and the registry that chooses between them (`CloudSyncManager`). Each
 * provider's `Sync` runs its loops over the shared note store and its remote
 * files, and is proved to end in the state its model in `Backups` describes.
 */
module Cloud {
  import opened Wrappers
  import opened Json
  import opened Notes
  import opened Store
  import opened Backups

  /** The merge loop of both providers: saves each record it downloads, stopping at the first fault. */
  method MergeInto(db: NoteStore, es: seq<Json>, local: set<string>, now: Timestamp, itemIds: nat -> nat -> string)
    returns (downloaded: nat, fault: Option<Fault>)
    requires db.Valid()
    modifies db
    ensures db.Valid()
    ensures Merged(db.notes, downloaded, fault) == Merge(old(db.notes), es, local, now, itemIds, db.md5)
    ensures db.labels == old(db.labels) && db.settings == old(db.settings) && db.syncLog == old(db.syncLog)
  {
    downloaded, fault := 0, None;
    var i := 0;
    while i < |es|
      invariant 0 <= i <= |es| && db.Valid()
      invariant Merged(db.notes, downloaded, None) == Merge(old(db.notes), es[..i], local, now, itemIds, db.md5)
      invariant fault.None?
      invariant db.labels == old(db.labels) && db.settings == old(db.settings) && db.syncLog == old(db.syncLog)
    {
      MergeSnoc(old(db.notes), es[..i], es[i], local, now, itemIds, db.md5);
      assert es[..i] + [es[i]] == es[..i + 1];
      match Download(es[i], i, local, now, itemIds, db.md5) {
        case Err(f) =>
          fault := Some(f);
          MergeFaultSticks(old(db.notes), es, i + 1, local, now, itemIds, db.md5);
          return;
        case Ok(None) =>
        case Ok(Some(n)) =>
          var ok, saved := db.SaveNote(n, now);
          downloaded := downloaded + 1;
      }
      i := i + 1;
    }
    assert es[..i] == es;
  }

  /** The ids of the queried rows, as `{n.id for n in local_notes}` builds them. */
  function IdsOf(rows: seq<Note>): set<string> {
    set i | 0 <= i < |rows| :: rows[i].id
  }

  class DriveBackup {
    const db: NoteStore
    /** `is_connected`; the service handle is set and cleared with it. */
    var connected: bool
    /** The notes file in the app's Drive folder, if there is one. */
    var file: Option<Json>
    var lastSync: Option<Timestamp>

    ghost predicate Valid()
      reads this, db
    {
      db.Valid()
    }

    ghost function State(): DriveState
      reads this, db
    {
      DriveState(connected, db.notes, db.labels, db.settings, file, lastSync)
    }

    /** A provider over the store `db`, not connected, facing the Drive folder's current file. */
    constructor (db: NoteStore, file: Option<Json>)
      requires db.Valid()
      ensures Valid() && this.db == db && !connected && this.file == file && lastSync == None
    {
      this.db := db;
      connected := false;
      this.file := file;
      lastSync := None;
    }

    /**
     * `connect`: the OAuth flow and the folder lookup are the outcome
     * `failure` (the message returned when they fail). On success the
     * provider is connected and the store remembers it.
     */
    method Connect(failure: Option<string>) returns (success: bool, message: string)
      requires Valid()
      modifies this, db
      ensures Valid()
      ensures success <==> failure.None?
      ensures success ==>
        connected && message == "Connected to Google Drive successfully"
        && db.settings == old(db.settings)["cloud_provider" := SettingText("gdrive")]
      ensures !success ==> message == failure.value && connected == old(connected) && db.settings == old(db.settings)
      ensures file == old(file) && lastSync == old(lastSync)
      ensures db.notes == old(db.notes) && db.labels == old(db.labels) && db.syncLog == old(db.syncLog)
    {
      if failure.Some? {
        return false, failure.value;
      }
      connected := true;
      var ok := db.SetSetting("cloud_provider", SettingText("gdrive"));
      return true, "Connected to Google Drive successfully";
    }

    /** `disconnect`: the provider is no longer connected and the store forgets it. */
    method Disconnect()
      requires Valid()
      modifies this, db
      ensures Valid() && !connected
      ensures db.settings == old(db.settings)["cloud_provider" := SettingNull]
      ensures file == old(file) && lastSync == old(lastSync)
      ensures db.notes == old(db.notes) && db.labels == old(db.labels) && db.syncLog == old(db.syncLog)
    {
      connected := false;
      var ok := db.SetSetting("cloud_provider", SettingNull);
    }

    /** `sync`: the merge of the backup file into the store, then its replacement by a new backup. */
    method Sync(env: DriveEnv) returns (success: bool, message: string, stats: BackupStats, trace: DriveTrace)
      requires Valid()
      modifies this, db
      ensures Valid()
      ensures (State(), Outcome(success, message, stats)) == DriveRun(old(State()), trace, env, db.md5)
      ensures success ==> DriveTraceFits(old(State()), trace, env, db.md5)
      ensures db.syncLog == old(db.syncLog)
    {
      trace := DriveTrace([], []);
      if !connected {
        return false, "Not connected to Google Drive", NoCounts, trace;
      }
      var local := db.GetAllNotes(false, true);
      BackupQueryRows(local, db.notes);
      var tags := db.GetAllLabels();
      if env.fetchFailure.Some? {
        return false, "Sync error: " + env.fetchFailure.value, Counts(0, 0, 0), trace;
      }
      ghost var before := State();
      var downloaded, fault := MergeBackup(local, env);
      DriveRunAfterMerge(before, trace, env, db.md5, Merged(db.notes, downloaded, fault));
      if fault.Some? {
        var o := Failed(fault.value, env.explain, Counts(0, downloaded, 0));
        return o.success, o.message, o.stats, trace;
      }
      assert State() == before.(notes := db.notes);
      var rows := local;
      if file.Some? {
        rows := db.GetAllNotes(false, true);
      }
      BackupQueryRows(rows, db.notes);
      trace := DriveTrace(rows, tags);
      DriveRunAfterMerge(before, trace, env, db.md5, Merged(db.notes, downloaded, None));
      success, message, stats := UploadBackup(rows, tags, downloaded, env);
    }

    /** The replacement of the backup file by the rows read after the merge, and the recorded time. */
    method UploadBackup(rows: seq<Note>, tags: seq<Label>, downloaded: nat, env: DriveEnv)
      returns (success: bool, message: string, stats: BackupStats)
      requires Valid()
      modifies this, db
      ensures Valid()
      ensures (State(), Outcome(success, message, stats))
        == DriveUpload(old(State()), Merged(old(db.notes), downloaded, None), DriveTrace(rows, tags), env)
      ensures db.syncLog == old(db.syncLog)
    {
      if env.uploadFailure.Some? {
        var o := Failed(Raised(env.uploadFailure.value), env.explain, Counts(0, downloaded, 0));
        return o.success, o.message, o.stats;
      }
      file := Some(BackupFile(rows, tags, env.now));
      lastSync := Some(env.now);
      var ok := db.SetSetting("gdrive_last_sync", SettingTime(env.now));
      success, message, stats := true, "Sync completed", Counts(|rows|, downloaded, 0);
    }

    /** The merge of the backup file, if there is one, into the store. */
    method MergeBackup(local: seq<Note>, env: DriveEnv) returns (downloaded: nat, fault: Option<Fault>)
      requires Valid() && RowsOf(local, db.notes, InBackup)
      modifies db
      ensures Valid()
      ensures Merged(db.notes, downloaded, fault) == DriveMerge(old(State()), env, db.md5)
      ensures db.labels == old(db.labels) && db.settings == old(db.settings) && db.syncLog == old(db.syncLog)
    {
      downloaded, fault := 0, None;
      if file.Some? {
        var entries := NotesEntries(file.value);
        if entries.Err? {
          return 0, Some(entries.error);
        }
        RowIdsAreLocalIds(local, db.notes, db.md5);
        downloaded, fault := MergeInto(db, entries.value, IdsOf(local), env.now, env.itemIds);
      }
    }
  }

  class GitHubBackup {
    const db: NoteStore
    /** `is_connected`; the repository handle is set and cleared with it. */
    var connected: bool
    /** The files of the repository's `notes` directory, by name, as decoded JSON. */
    var noteFiles: map<string, Json>
    /** `labels.json` and `metadata.json`. */
    var labelsFile: Option<Json>
    var metadataFile: Option<Json>
    var lastSync: Option<Timestamp>

    ghost predicate Valid()
      reads this, db
    {
      db.Valid()
    }

    ghost function State(): GitHubState
      reads this, db
    {
      GitHubState(connected, db.notes, db.labels, db.settings, noteFiles, labelsFile, metadataFile, lastSync)
    }

    /** A provider over the store `db`, not connected, facing the repository's current files. */
    constructor (db: NoteStore, noteFiles: map<string, Json>, labelsFile: Option<Json>, metadataFile: Option<Json>)
      requires db.Valid()
      ensures Valid() && this.db == db && !connected && lastSync == None
      ensures this.noteFiles == noteFiles && this.labelsFile == labelsFile && this.metadataFile == metadataFile
    {
      this.db := db;
      connected := false;
      this.noteFiles := noteFiles;
      this.labelsFile := labelsFile;
      this.metadataFile := metadataFile;
      lastSync := None;
    }

    /**
     * `connect`: the GitHub calls that find or create the repository are the
     * outcome `failure` (the message returned when they fail). On success the
     * provider is connected and the store remembers it and the repository name.
     */
    method Connect(repoName: string, failure: Option<string>) returns (success: bool, message: string)
      requires Valid()
      modifies this, db
      ensures Valid()
      ensures success <==> failure.None?
      ensures success ==>
        connected && message == "Connected to GitHub repository: " + repoName
        && db.settings == old(db.settings)["cloud_provider" := SettingText("github")]["github_repo" := SettingText(repoName)]
      ensures !success ==> message == failure.value && connected == old(connected) && db.settings == old(db.settings)
      ensures noteFiles == old(noteFiles) && labelsFile == old(labelsFile) && metadataFile == old(metadataFile)
      ensures lastSync == old(lastSync)
      ensures db.notes == old(db.notes) && db.labels == old(db.labels) && db.syncLog == old(db.syncLog)
    {
      if failure.Some? {
        return false, failure.value;
      }
      connected := true;
      var ok := db.SetSetting("cloud_provider", SettingText("github"));
      ok := db.SetSetting("github_repo", SettingText(repoName));
      return true, "Connected to GitHub repository: " + repoName;
    }

    /** `disconnect`: the provider is no longer connected and the store forgets it. */
    method Disconnect()
      requires Valid()
      modifies this, db
      ensures Valid() && !connected
      ensures db.settings == old(db.settings)["cloud_provider" := SettingNull]
      ensures noteFiles == old(noteFiles) && labelsFile == old(labelsFile) && metadataFile == old(metadataFile)
      ensures lastSync == old(lastSync)
      ensures db.notes == old(db.notes) && db.labels == old(db.labels) && db.syncLog == old(db.syncLog)
    {
      connected := false;
      var ok := db.SetSetting("cloud_provider", SettingNull);
    }

    /** The loop that reads the notes directory, in the order `listing`, into `remote_notes`. */
    method IndexFiles(listing: seq<string>) returns (index: Result<seq<IndexEntry>, Fault>)
      ensures index == BuildIndex(noteFiles, listing)
    {
      var entries: seq<IndexEntry> := [];
      var i := 0;
      while i < |listing|
        invariant 0 <= i <= |listing|
        invariant BuildIndex(noteFiles, listing[..i]) == Ok(entries)
      {
        assert listing[..i + 1][..i] == listing[..i];
        var name := listing[i];
        if IsJsonName(name) && name in noteFiles {
          match noteFiles[name] {
            case JObj(d) =>
              if "id" !in d {
                index := Err(Malformed(MissingKey("id")));
                IndexFaultSticks(noteFiles, listing, i + 1);
                return;
              }
              if d["id"].JArr? || d["id"].JObj? {
                index := Err(Unhashable);
                IndexFaultSticks(noteFiles, listing, i + 1);
                return;
              }
              entries := Upsert(entries, IndexEntry(d["id"], d));
            case _ =>
              index := Err(NotAnObject);
              IndexFaultSticks(noteFiles, listing, i + 1);
              return;
          }
        }
        i := i + 1;
      }
      assert listing[..i] == listing;
      index := Ok(entries);
    }

    /** One turn of the upload loop: compare note `n` with its file and write it when newer. */
    method UploadNote(n: Note, idx: seq<IndexEntry>, env: GitHubEnv, uploaded: nat, conflicts: nat)
      returns (uploaded': nat, conflicts': nat, fault: Option<Fault>)
      modifies this
      ensures Uploaded(noteFiles, uploaded', conflicts', fault)
           == UploadStep(Uploaded(old(noteFiles), uploaded, conflicts, None), n, idx, env)
      ensures connected == old(connected) && labelsFile == old(labelsFile) && metadataFile == old(metadataFile)
      ensures lastSync == old(lastSync)
    {
      uploaded', conflicts', fault := uploaded, conflicts, None;
      var found := Lookup(idx, JStr(n.id));
      if found.Some? {
        var newer := LocalIsNewer(n, found.value, env.isoAbove);
        if newer.Err? {
          fault := Some(newer.error);
          return;
        }
        if !newer.value {
          return;
        }
      }
      if n.id in env.writeFaults {
        match env.writeFaults[n.id] {
          case Conflict409 =>
            conflicts' := conflicts + 1;
          case WriteFailed(msg) =>
            fault := Some(Raised(msg));
        }
      } else {
        noteFiles := noteFiles[NoteFileName(n.id) := JObj(NoteToDict(n))];
        uploaded' := uploaded + 1;
      }
    }

    /** The upload loop over the local notes `rows`, writing note files one by one. */
    method UploadNotes(rows: seq<Note>, idx: seq<IndexEntry>, env: GitHubEnv)
      returns (uploaded: nat, conflicts: nat, fault: Option<Fault>)
      modifies this
      ensures Uploaded(noteFiles, uploaded, conflicts, fault) == Upload(old(noteFiles), rows, idx, env)
      ensures connected == old(connected) && labelsFile == old(labelsFile) && metadataFile == old(metadataFile)
      ensures lastSync == old(lastSync)
    {
      uploaded, conflicts, fault := 0, 0, None;
      var i := 0;
      while i < |rows|
        invariant 0 <= i <= |rows|
        invariant Uploaded(noteFiles, uploaded, conflicts, None) == Upload(old(noteFiles), rows[..i], idx, env)
        invariant fault.None?
        invariant connected == old(connected) && labelsFile == old(labelsFile) && metadataFile == old(metadataFile)
        invariant lastSync == old(lastSync)
      {
        UploadSnoc(old(noteFiles), rows[..i], rows[i], idx, env);
        assert rows[..i] + [rows[i]] == rows[..i + 1];
        uploaded, conflicts, fault := UploadNote(rows[i], idx, env, uploaded, conflicts);
        if fault.Some? {
          UploadFaultSticks(old(noteFiles), rows, i + 1, idx, env);
          return;
        }
        i := i + 1;
      }
      assert rows[..i] == rows;
    }

    /** `sync`: index the notes directory, download new notes, upload newer ones, then labels and metadata. */
    method Sync(env: GitHubEnv) returns (success: bool, message: string, stats: BackupStats, trace: GitHubTrace)
      requires Valid()
      modifies this, db
      ensures Valid()
      ensures (State(), Outcome(success, message, stats)) == GitHubRun(old(State()), trace, env, db.md5)
      ensures success ==> GitHubTraceFits(old(State()), trace)
      ensures db.syncLog == old(db.syncLog)
    {
      trace := GitHubTrace([], [], []);
      if !connected {
        return false, "Not connected to GitHub", NoCounts, trace;
      }
      var local := db.GetAllNotes(false, true);
      BackupQueryRows(local, db.notes);
      if env.listFailure.Some? {
        return false, "Sync error: " + env.listFailure.value, Counts(0, 0, 0), trace;
      }
      var listing := EnumerateKeys(noteFiles);
      trace := GitHubTrace(listing, local, []);
      var index := IndexFiles(listing);
      if index.Err? {
        var o := Failed(index.error, env.explain, Counts(0, 0, 0));
        return o.success, o.message, o.stats, trace;
      }
      var tags;
      success, message, stats, tags := Exchange(index.value, listing, local, env);
      trace := GitHubTrace(listing, local, tags);
    }

    /** The middle of `sync`: download new notes, upload newer ones, then publish. */
    method Exchange(idx: seq<IndexEntry>, ghost listing: seq<string>, local: seq<Note>, env: GitHubEnv)
      returns (success: bool, message: string, stats: BackupStats, tags: seq<Label>)
      requires Valid() && RowsOf(local, db.notes, InBackup)
      modifies this, db
      ensures Valid()
      ensures success ==> LabelRows(tags, old(db.labels))
      ensures (State(), Outcome(success, message, stats))
        == GitHubExchange(old(State()), idx, GitHubTrace(listing, local, tags), env, db.md5)
      ensures db.syncLog == old(db.syncLog)
    {
      tags := [];
      RowIdsAreLocalIds(local, db.notes, db.md5);
      ghost var before := State();
      var downloaded, fault := MergeInto(db, EntriesOf(idx), IdsOf(local), env.now, env.itemIds);
      if fault.Some? {
        var o := Failed(fault.value, env.explain, Counts(0, downloaded, 0));
        return o.success, o.message, o.stats, tags;
      }
      assert State() == before.(notes := db.notes);
      success, message, stats, tags := UploadAndPublish(idx, listing, local, downloaded, env);
    }

    /** The upload loop, then the labels and metadata files. */
    method UploadAndPublish(idx: seq<IndexEntry>, ghost listing: seq<string>, local: seq<Note>, downloaded: nat, env: GitHubEnv)
      returns (success: bool, message: string, stats: BackupStats, tags: seq<Label>)
      requires Valid()
      modifies this, db
      ensures Valid()
      ensures success ==> LabelRows(tags, old(db.labels))
      ensures (State(), Outcome(success, message, stats))
        == GitHubPublish(old(State()), Upload(old(noteFiles), local, idx, env), downloaded, GitHubTrace(listing, local, tags), env)
      ensures db.syncLog == old(db.syncLog)
    {
      tags := [];
      ghost var before := State();
      var uploaded, conflicts, ufault := UploadNotes(local, idx, env);
      ghost var u := Uploaded(noteFiles, uploaded, conflicts, ufault);
      assert u == Upload(before.noteFiles, local, idx, env);
      var counts := Counts(uploaded, downloaded, conflicts);
      if ufault.Some? {
        var o := Failed(ufault.value, env.explain, counts);
        return o.success, o.message, o.stats, tags;
      }
      ghost var mid := State();
      assert mid == before.(noteFiles := u.files);
      success, message, stats, tags := Publish(listing, local, counts, env);
      PublishKeepsOwnFiles(before, u, downloaded, GitHubTrace(listing, local, tags), env);
    }

    /** The end of `sync` once the notes are exchanged: the labels file, the metadata file, the recorded time. */
    method Publish(ghost listing: seq<string>, local: seq<Note>, counts: BackupStats, env: GitHubEnv)
      returns (success: bool, message: string, stats: BackupStats, tags: seq<Label>)
      requires Valid() && counts.Counts?
      modifies this, db
      ensures Valid()
      ensures LabelRows(tags, old(db.labels))
      ensures (State(), Outcome(success, message, stats))
        == GitHubPublish(old(State()), Uploaded(old(noteFiles), counts.uploaded, counts.conflicts, None), counts.downloaded,
                         GitHubTrace(listing, local, tags), env)
      ensures db.syncLog == old(db.syncLog)
    {
      tags := db.GetAllLabels();
      if env.labelsFailure.Some? {
        var o := Failed(Raised(env.labelsFailure.value), env.explain, counts);
        return o.success, o.message, o.stats, tags;
      }
      labelsFile := Some(JArr(LabelsJson(tags)));
      if env.metadataFailure.Some? {
        var o := Failed(Raised(env.metadataFailure.value), env.explain, counts);
        return o.success, o.message, o.stats, tags;
      }
      metadataFile := Some(Metadata(|local|, env.now));
      lastSync := Some(env.now);
      var ok := db.SetSetting("github_last_sync", SettingTime(env.now));
      success, message, stats := true, "Sync completed", counts;
    }
  }

  /** The two registered providers. */
  datatype ProviderName = DriveProvider | GitHubProvider

  /** The registry key of each provider. */
  function ProviderKey(p: ProviderName): string {
    match p
    case DriveProvider => "gdrive"
    case GitHubProvider => "github"
  }

  /** `self.providers.get(name)`: only the two keys name a provider, and each names its own. */
  function ProviderNamed(name: string): (r: Option<ProviderName>)
    ensures r.Some? <==> name == "gdrive" || name == "github"
    ensures r.Some? ==> ProviderKey(r.value) == name
  {
    if name == "gdrive" then Some(DriveProvider)
    else if name == "github" then Some(GitHubProvider)
    else None
  }

  /** The registry key of a provider looks that provider up again. */
  lemma ProviderKeyLooksUp(p: ProviderName)
    ensures ProviderNamed(ProviderKey(p)) == Some(p)
  {
  }

  /** What a manager's sync ran: nothing, or one provider's sync with its iteration orders. */
  datatype SyncTrace = NoSync | DriveSynced(drive: DriveTrace) | GitHubSynced(gitHub: GitHubTrace)

  /**
   * `CloudSyncManager`: the registry of the two providers over one store,
   * and the provider currently chosen to sync.
   */
  class CloudSyncManager {
    const db: NoteStore
    const drive: DriveBackup
    const github: GitHubBackup
    var active: Option<ProviderName>

    ghost predicate Valid()
      reads this, db
    {
      drive.db == db && github.db == db && db.Valid()
    }

    /** Whether the active provider, if any, is connected. */
    predicate ActiveConnected()
      reads this, drive, github
    {
      match active
      case None => false
      case Some(DriveProvider) => drive.connected
      case Some(GitHubProvider) => github.connected
    }

    /** A registry of two fresh, disconnected providers and no active one. */
    constructor (db: NoteStore, driveFile: Option<Json>, noteFiles: map<string, Json>,
                 labelsFile: Option<Json>, metadataFile: Option<Json>)
      requires db.Valid()
      ensures Valid() && this.db == db && active == None
      ensures fresh(drive) && !drive.connected && drive.file == driveFile && drive.lastSync == None
      ensures fresh(github) && !github.connected && github.noteFiles == noteFiles
      ensures github.labelsFile == labelsFile && github.metadataFile == metadataFile && github.lastSync == None
    {
      this.db := db;
      drive := new DriveBackup(db, driveFile);
      github := new GitHubBackup(db, noteFiles, labelsFile, metadataFile);
      active := None;
    }

    /** `set_active_provider`: succeeds exactly for a registered name, which becomes active. */
    method SetActiveProvider(name: string) returns (ok: bool)
      modifies this
      ensures ok <==> ProviderNamed(name).Some?
      ensures active == if ok then ProviderNamed(name) else old(active)
    {
      var p := ProviderNamed(name);
      if p.Some? {
        active := p;
        return true;
      }
      return false;
    }

    /** `connect_gdrive`: the Drive provider connects, and becomes active when it does. */
    method ConnectGDrive(failure: Option<string>) returns (success: bool, message: string)
      requires Valid()
      modifies this, db, drive
      ensures Valid()
      ensures success <==> failure.None?
      ensures active == if success then Some(DriveProvider) else old(active)
      ensures success ==>
        drive.connected && message == "Connected to Google Drive successfully"
        && db.settings == old(db.settings)["cloud_provider" := SettingText("gdrive")]
      ensures !success ==> message == failure.value && drive.connected == old(drive.connected) && db.settings == old(db.settings)
      ensures drive.file == old(drive.file) && drive.lastSync == old(drive.lastSync)
      ensures db.notes == old(db.notes) && db.labels == old(db.labels) && db.syncLog == old(db.syncLog)
    {
      success, message := drive.Connect(failure);
      if success {
        active := Some(DriveProvider);
      }
    }

    /** `connect_github`: the GitHub provider connects to `repoName`, and becomes active when it does. */
    method ConnectGitHub(repoName: string, failure: Option<string>) returns (success: bool, message: string)
      requires Valid()
      modifies this, db, github
      ensures Valid()
      ensures success <==> failure.None?
      ensures active == if success then Some(GitHubProvider) else old(active)
      ensures success ==>
        github.connected && message == "Connected to GitHub repository: " + repoName
        && db.settings == old(db.settings)["cloud_provider" := SettingText("github")]["github_repo" := SettingText(repoName)]
      ensures !success ==> message == failure.value && github.connected == old(github.connected) && db.settings == old(db.settings)
      ensures github.noteFiles == old(github.noteFiles) && github.lastSync == old(github.lastSync)
      ensures github.labelsFile == old(github.labelsFile) && github.metadataFile == old(github.metadataFile)
      ensures db.notes == old(db.notes) && db.labels == old(db.labels) && db.syncLog == old(db.syncLog)
    {
      success, message := github.Connect(repoName, failure);
      if success {
        active := Some(GitHubProvider);
      }
    }

    /** `disconnect`: the active provider, if any, disconnects and none is active afterwards. */
    method Disconnect()
      requires Valid()
      modifies this, db, drive, github
      ensures Valid() && active == None
      ensures old(active) == Some(DriveProvider) ==> !drive.connected && github.connected == old(github.connected)
      ensures old(active) == Some(GitHubProvider) ==> !github.connected && drive.connected == old(drive.connected)
      ensures db.settings == if old(active).Some? then old(db.settings)["cloud_provider" := SettingNull] else old(db.settings)
      ensures old(active) == None ==> drive.connected == old(drive.connected) && github.connected == old(github.connected)
      ensures drive.file == old(drive.file) && drive.lastSync == old(drive.lastSync)
      ensures github.noteFiles == old(github.noteFiles) && github.lastSync == old(github.lastSync)
      ensures github.labelsFile == old(github.labelsFile) && github.metadataFile == old(github.metadataFile)
      ensures db.notes == old(db.notes) && db.labels == old(db.labels) && db.syncLog == old(db.syncLog)
    {
      match active {
        case None =>
        case Some(DriveProvider) =>
          drive.Disconnect();
        case Some(GitHubProvider) =>
          github.Disconnect();
      }
      active := None;
    }

    /**
     * `sync`: refused unless a provider is active and connected; otherwise it
     * is that provider's sync, and the other provider is left as it was.
     */
    method Sync(driveEnv: DriveEnv, gitHubEnv: GitHubEnv)
      returns (success: bool, message: string, stats: BackupStats, trace: SyncTrace)
      requires Valid()
      modifies db, drive, github
      ensures Valid()
      ensures !old(ActiveConnected()) ==>
        success == false && message == "No cloud provider connected" && stats == NoCounts && trace == NoSync
        && unchanged(db, drive, github)
      ensures old(ActiveConnected()) && active == Some(DriveProvider) ==>
        trace.DriveSynced?
        && (drive.State(), Outcome(success, message, stats)) == DriveRun(old(drive.State()), trace.drive, driveEnv, db.md5)
        && unchanged(github)
      ensures old(ActiveConnected()) && active == Some(GitHubProvider) ==>
        trace.GitHubSynced?
        && (github.State(), Outcome(success, message, stats)) == GitHubRun(old(github.State()), trace.gitHub, gitHubEnv, db.md5)
        && unchanged(drive)
      ensures db.syncLog == old(db.syncLog)
    {
      if !ActiveConnected() {
        return false, "No cloud provider connected", NoCounts, NoSync;
      }
      match active {
        case Some(DriveProvider) =>
          var t;
          success, message, stats, t := drive.Sync(driveEnv);
          trace := DriveSynced(t);
        case Some(GitHubProvider) =>
          var t;
          success, message, stats, t := github.Sync(gitHubEnv);
          trace := GitHubSynced(t);
      }
    }
  }
}
