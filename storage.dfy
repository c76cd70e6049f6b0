/** The `storage/` directory: one folder per release holding the uploaded archive and its
    normalized `metadata.json` (api/utils.kt `saveModuleToFolder`, `normalizeMetadata`). */
module Storage {
  import opened Wrappers
  import opened Text
  import opened Entities

  type Bytes = seq<bv8>

  /** `ModuleMetadata`: every field may be absent in the uploaded JSON. */
  datatype ModuleMetadata = ModuleMetadata(
    name: Option<string>,
    version: Option<string>,
    tags: Option<seq<string>>,
    pictureLink: Option<string>,
    creator: Option<string>,
    description: Option<string>)

  /** The `metadata.json` of the archive's root folder, as far as reading it goes: missing,
      not JSON, the JSON literal `null`, or a metadata object. */
  datatype MetadataFile = Absent | Malformed | NullJson | Json(metadata: ModuleMetadata)

  /** One entry directly under the archive's root. */
  datatype RootEntry = RootEntry(metadataFile: MetadataFile)

  /** An uploaded file: its bytes and what opening them as a zip shows. */
  datatype Upload = Upload(content: Bytes, isZip: bool, roots: seq<RootEntry>)

  /** A release folder: `scripts.zip` and `metadata.json`, each present or not. */
  datatype Folder = Folder(scripts: Option<Bytes>, metadata: Option<ModuleMetadata>)

  const EmptyFolder := Folder(None, None)

  /** `storage/<lower-case module name>/<release id>`. */
  datatype FolderKey = FolderKey(moduleName: string, releaseId: Uuid)

  function ReleaseFolder(m: Module, releaseId: Uuid): (k: FolderKey)
    ensures k.releaseId == releaseId && k.moduleName == Lower(m.name)
    ensures |k.moduleName| == |m.name| && forall i :: 0 <= i < |m.name| ==> k.moduleName[i] == LowerChar(m.name[i])
  {
    FolderKey(Lower(m.name), releaseId)
  }

  /** Module names that differ only in the case of their letters share their release
      folders: "Foo" and "foo" would write to the same directory. */
  lemma FolderIgnoresCase(a: Module, b: Module, releaseId: Uuid)
    requires |a.name| == |b.name|
    requires forall i :: 0 <= i < |a.name| ==> LowerChar(a.name[i]) == LowerChar(b.name[i])
    ensures ReleaseFolder(a, releaseId) == ReleaseFolder(b, releaseId)
  {
  }

  /** `normalizeMetadata`: all six fields are overwritten from the registry; the tag list
      is `split(",").ifEmpty { null }`. */
  function NormalizeMetadata(uploaded: ModuleMetadata, m: Module, ownerName: string, release: Release): (r: ModuleMetadata)
    ensures r.name == Some(m.name) && r.version == Some(release.releaseVersion)
    ensures r.pictureLink == m.image && r.creator == Some(ownerName) && r.description == Some(m.description)
  {
    var parts := Split(m.tags, ',');
    uploaded
      .(name := Some(m.name))
      .(version := Some(release.releaseVersion))
      .(tags := if |parts| == 0 then None else Some(parts))
      .(pictureLink := m.image)
      .(creator := Some(ownerName))
      .(description := Some(m.description))
  }

  /** The uploaded values play no part in the result. */
  lemma NormalizeIgnoresUpload(a: ModuleMetadata, b: ModuleMetadata, m: Module, ownerName: string, release: Release)
    ensures NormalizeMetadata(a, m, ownerName, release) == NormalizeMetadata(b, m, ownerName, release)
  {
  }

  /** The normalized tags are never null: they are the module's tag string split on ',',
      ("" gives [""]) and joining them back gives the stored string. */
  lemma NormalizedTags(uploaded: ModuleMetadata, m: Module, ownerName: string, release: Release)
    ensures var r := NormalizeMetadata(uploaded, m, ownerName, release);
      r.tags.Some? && |r.tags.value| >= 1 && Join(r.tags.value, ",") == m.tags
    ensures m.tags == "" ==> NormalizeMetadata(uploaded, m, ownerName, release).tags == Some([""])
  {
    JoinSplit(m.tags, ',');
  }

  /** Why an upload is refused, in the order the checks happen. */
  datatype Rejection = NotAZip | TooSmall | TooBig | MissingMetadata | MalformedMetadata | NullMetadata

  /** The archive rules: a zip whose root holds exactly one entry, whose `metadata.json`
      exists and holds a JSON object. */
  function CheckArchive(upload: Upload): (r: Result<ModuleMetadata>)
    ensures r.Ok? <==> upload.isZip && |upload.roots| == 1 && upload.roots[0].metadataFile.Json?
    ensures r.Ok? ==> r.value == upload.roots[0].metadataFile.metadata
    ensures r.Err? ==> r.error == BadRequest
  {
    match Reject(upload)
    case Some(_) => Err(BadRequest)
    case None => Ok(upload.roots[0].metadataFile.metadata)
  }

  function Reject(upload: Upload): (r: Option<Rejection>)
    ensures r.None? <==> upload.isZip && |upload.roots| == 1 && upload.roots[0].metadataFile.Json?
    ensures r == Some(NotAZip) <==> !upload.isZip
  {
    if !upload.isZip then Some(NotAZip)
    else if |upload.roots| == 0 then Some(TooSmall)
    else if |upload.roots| > 1 then Some(TooBig)
    else match upload.roots[0].metadataFile
      case Absent => Some(MissingMetadata)
      case Malformed => Some(MalformedMetadata)
      case NullJson => Some(NullMetadata)
      case Json(_) => None
  }

  lemma UpdateThenRemove(folders: map<FolderKey, Folder>, key: FolderKey, f: Folder)
    ensures folders[key := f] - {key} == folders - {key}
  {
  }

  /** The file system under `storage/`. */
  class Store {
    var folders: map<FolderKey, Folder>

    constructor()
      ensures folders == map[]
    {
      folders := map[];
    }

    /** The folder as it is now, or an empty one when it does not exist yet (`mkdirs`). */
    function Current(key: FolderKey): (f: Folder)
      reads this
      ensures key !in folders ==> f == EmptyFolder
    {
      if key in folders then folders[key] else EmptyFolder
    }

    /** `saveModuleToFolder`: create the folder, write the archive, check it is a zip (else
        delete it), copy the root folder's `metadata.json` in and normalize it; any failure
        after the zip check deletes both files. Every failure is BadRequest. */
    method SaveModuleToFolder(upload: Upload, key: FolderKey, m: Module, ownerName: string, release: Release)
      returns (res: Outcome)
      modifies this
      ensures res.Fail? ==> res.error == BadRequest
      ensures res.Done? <==> CheckArchive(upload).Ok?
      ensures res.Done? ==> folders == old(folders)[key := Folder(Some(upload.content),
                                          Some(NormalizeMetadata(CheckArchive(upload).value, m, ownerName, release)))]
      ensures Reject(upload) == Some(NotAZip) ==>
                folders == old(folders)[key := old(Current(key)).(scripts := None)]
      ensures res.Fail? && upload.isZip ==> folders == old(folders)[key := EmptyFolder]
      ensures res.Fail? ==> folders - {key} == old(folders) - {key}
    {
      var folder := Current(key);                          // mkdirs
      folder := folder.(scripts := Some(upload.content));  // write scripts.zip
      if !upload.isZip {
        folder := folder.(scripts := None);
        folders := folders[key := folder];
        UpdateThenRemove(old(folders), key, folder);
        return Fail(BadRequest);
      }
      var failed := false;
      if |upload.roots| == 0 || |upload.roots| > 1 {
        failed := true;
      } else {
        var file := upload.roots[0].metadataFile;
        if file.Absent? {
          failed := true;
        } else {
          // the copy of metadata.json, then its normalization
          folder := folder.(metadata := if file.Json? then Some(file.metadata) else None);
          if file.Json? {
            folder := folder.(metadata := Some(NormalizeMetadata(file.metadata, m, ownerName, release)));
          } else {
            failed := true;
          }
        }
      }
      if failed {
        folder := folder.(scripts := None).(metadata := None);
        folders := folders[key := folder];
        UpdateThenRemove(old(folders), key, folder);
        return Fail(BadRequest);
      }
      folders := folders[key := folder];
      return Done;
    }

    /** `File.deleteRecursively()` on a release folder. */
    method DeleteFolder(key: FolderKey)
      modifies this
      ensures folders == old(folders) - {key}
      ensures key !in folders
    {
      folders := folders - {key};
    }
  }
}
