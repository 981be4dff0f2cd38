/** The paper storage workflow of `FileService`: already-encrypted paper text
    is written under a caller-supplied name inside a fixed upload directory,
    then a metadata record and one paper-course link per course are saved.
    Repository calls take effect at once and one by one, so what is left
    behind by a failure depends on how far the method got. */
module PaperWorkflows {
  import opened Common
  import opened FilePaths

  datatype EncryptedPaper = EncryptedPaper(
    id: nat,
    fileName: string,
    filePath: string,
    creatorId: nat,
    moderatorId: nat,
    remarks: Option<string>,
    academicYearId: nat)

  /** A row of the paper-course join table. */
  datatype PaperCourse = PaperCourse(paperId: nat, courseId: nat)

  /** The exceptions the service throws or lets escape. */
  datatype Failure =
    | CourseIdsMissing                      // course id list null or empty
    | AcademicYearNotFound(academicYearId: nat)
    | FileNameNull                          // `fileName.contains` on null
    | InvalidFileName
    | InvalidPath                           // a NUL character in a path string
    | SaveFailed                            // the write threw an IOException
    | CreatorNotFound
    | ModeratorNotFound
    | CourseNotFound(courseId: nat)
    | EncryptedPaperNotFound(paperId: nat)  // raised by the update
    | PaperNotFound                         // raised by the delete
    | DeleteFailed                          // the delete threw an IOException
    | ReadFailed                            // the read threw an IOException
    | DecryptionFailed(cause: ExceptionClass)

  function ClassOf(f: Failure): ExceptionClass {
    match f
    case CourseIdsMissing => IllegalArgumentException
    case InvalidFileName => IllegalArgumentException
    case FileNameNull => NullPointerException
    case InvalidPath => InvalidPathException
    case DecryptionFailed(cause) => cause
    case _ => RuntimeException
  }

  /** `UPLOAD_DIR`. */
  const UploadDir: string := "src/main/resources/Encrypted_Papers/"

  /** `Paths.get(UPLOAD_DIR)`, the directory every paper is stored in. */
  const UploadRoot: Path := Path(false, ["src", "main", "resources", "Encrypted_Papers"])

  /** Four names printed one after the other. */
  lemma JoinFour(a: string, b: string, c: string, d: string)
    ensures JoinNames([a, b, c, d]) == a + "/" + b + "/" + c + "/" + d
  {
    assert [a, b, c, d][1..] == [b, c, d];
    assert [b, c, d][1..] == [c, d];
    assert [c, d][1..] == [d];
    assert JoinNames([c, d]) == c + "/" + d;
    assert JoinNames([b, c, d]) == b + "/" + (c + "/" + d);
    assert JoinNames([a, b, c, d]) == a + "/" + (b + "/" + (c + "/" + d));
  }

  /** `UPLOAD_DIR` spelled name by name. */
  lemma UploadDirNames()
    ensures UploadDir == "src" + "/" + "main" + "/" + "resources" + "/" + "Encrypted_Papers" + "/"
  {
  }

  /** `UPLOAD_DIR` is the printed directory with a trailing separator. */
  lemma UploadDirPrints()
    ensures UploadDir == ToString(UploadRoot) + "/"
  {
    JoinFour("src", "main", "resources", "Encrypted_Papers");
    UploadDirNames();
  }

  lemma UploadDirParses()
    ensures Parse(UploadDir) == Some(UploadRoot)
  {
    var j := ToString(UploadRoot);
    UploadDirPrints();
    UploadRootWellFormed();
    ParseToString(UploadRoot);
    SplitTrailingSlash(j);
    assert '\0' !in j + "/";
  }

  predicate ContainsSubstring(s: string, sub: string) {
    exists i :: 0 <= i <= |s| && sub <= s[i..]
  }

  /** The name check of `saveFileToStorage`, three `String.contains` calls:
      a name passes exactly when it has no separator of either kind and no
      two dots in a row. */
  predicate SafeFileName(name: string): (r: bool)
    ensures r <==> '/' !in name && '\\' !in name && forall i :: 0 <= i < |name| - 1 ==> !(name[i] == '.' && name[i + 1] == '.')
  {
    ContainsChar(name, '/');
    ContainsChar(name, '\\');
    DoubleDot(name);
    !ContainsSubstring(name, "..") && !ContainsSubstring(name, "/") && !ContainsSubstring(name, "\\")
  }

  /** `s.contains("..")` is two adjacent dots. */
  lemma DoubleDot(s: string)
    ensures ContainsSubstring(s, "..") <==> exists i :: 0 <= i < |s| - 1 && s[i] == '.' && s[i + 1] == '.'
  {
    if ContainsSubstring(s, "..") {
      var i :| 0 <= i <= |s| && ".." <= s[i..];
      assert s[i..][0] == s[i] && s[i..][1] == s[i + 1];
    }
    if exists i :: 0 <= i < |s| - 1 && s[i] == '.' && s[i + 1] == '.' {
      var i :| 0 <= i < |s| - 1 && s[i] == '.' && s[i + 1] == '.';
      assert ".." <= s[i..];
    }
  }

  lemma ContainsChar(s: string, c: char)
    ensures ContainsSubstring(s, [c]) <==> c in s
  {
    if c in s {
      var i :| 0 <= i < |s| && s[i] == c;
      assert s[i..][0] == c;
    }
    if ContainsSubstring(s, [c]) {
      var i :| 0 <= i <= |s| && [c] <= s[i..];
      assert s[i..][0] == c;
    }
  }

  lemma ParentNameIsUnsafe()
    ensures !SafeFileName("..")
  {
    assert ".." <= ".."[0..];
  }

  /** Where `saveFileToStorage` puts a file: the name check, then
      `Paths.get(UPLOAD_DIR).resolve(fileName).normalize()`, then the check
      that the result still starts with the upload directory. */
  function ResolveUploadPath(fileName: string): (r: Result<Path, Failure>)
    ensures !SafeFileName(fileName) ==> r == Failure(InvalidFileName)
    ensures SafeFileName(fileName) && '\0' in fileName ==> r == Failure(InvalidPath)
    ensures SafeFileName(fileName) && '\0' !in fileName ==>
      r == Success(if fileName == "" || fileName == "." then UploadRoot
                   else Path(false, UploadRoot.names + [fileName]))
    ensures r.Success? ==> StartsWith(r.value, UploadRoot) && WellFormed(r.value)
  {
    if !SafeFileName(fileName) then Failure(InvalidFileName)
    else
      match Parse(fileName)
      case None => Failure(InvalidPath)
      case Some(name) =>
        SafeNameResolves(fileName);
        var path := Normalize(Resolve(UploadRoot, name));
        if !StartsWith(path, Normalize(UploadRoot)) then Failure(InvalidFileName)
        else Success(path)
  }

  lemma UploadRootPlain()
    ensures forall i :: 0 <= i < |UploadRoot.names| ==> Plain(UploadRoot.names[i])
  {
  }

  lemma UploadRootWellFormed()
    ensures WellFormed(UploadRoot)
  {
  }

  lemma UploadRootNormal()
    ensures Normalize(UploadRoot) == UploadRoot
  {
    var root := UploadRoot.names;
    UploadRootPlain();
    NormalizePlainPrefix(false, [], root, []);
    assert [] + root == root && root + [] == root;
  }

  lemma UploadRootFacts()
    ensures forall i :: 0 <= i < |UploadRoot.names| ==> Plain(UploadRoot.names[i])
    ensures WellFormed(UploadRoot)
    ensures Normalize(UploadRoot) == UploadRoot
  {
    UploadRootPlain();
    UploadRootWellFormed();
    UploadRootNormal();
  }

  /** A name that passes the name check lands directly in the upload
      directory; "" and "." denote the directory itself. So the containment
      check never rejects such a name. */
  lemma SafeNameResolves(fileName: string)
    requires SafeFileName(fileName) && '\0' !in fileName
    ensures Parse(fileName).Some?
    ensures Normalize(UploadRoot) == UploadRoot
    ensures WellFormed(UploadRoot)
    ensures fileName != "" && fileName != "." ==> WellFormedName(fileName)
    ensures Normalize(Resolve(UploadRoot, Parse(fileName).value)) ==
      if fileName == "" || fileName == "." then UploadRoot
      else Path(false, UploadRoot.names + [fileName])
  {
    ContainsChar(fileName, '/');
    ParentNameIsUnsafe();
    UploadRootFacts();
    var root := UploadRoot.names;
    if fileName == "" {
      assert Parse(fileName) == Some(Path(false, []));
      assert root + [] == root;
    } else {
      SingleNameParses(fileName);
      if fileName == "." {
        NormalizePlainPrefix(false, [], root, ["."]);
        assert [] + root == root;
      } else {
        assert forall i :: 0 <= i < |root + [fileName]| ==> Plain((root + [fileName])[i]);
        NormalizePlainPrefix(false, [], root + [fileName], []);
        assert [] + (root + [fileName]) == root + [fileName];
        assert root + [fileName] + [] == root + [fileName];
      }
    }
  }

  /** What `Files.write` does with a name: the location written, or the
      failure. A write needs the parent of its target to be a directory and
      the target itself not to be one. The parent of the upload directory is
      taken to exist; `uploadDir` says whether the upload directory exists
      as a directory. With it, a name in it can be written and the
      directory's own path cannot; without it, only the directory's own
      path can, and it becomes a regular file. `writeFails` stands for every
      other I/O failure. */
  function StorageTarget(fileName: string, uploadDir: bool, writeFails: bool): (r: Result<Path, Failure>)
    ensures ResolveUploadPath(fileName).Failure? ==> r == ResolveUploadPath(fileName)
    ensures ResolveUploadPath(fileName).Success? && r.Failure? ==> r == Failure(SaveFailed)
    ensures r.Success? ==> r == ResolveUploadPath(fileName) && StartsWith(r.value, UploadRoot) && WellFormed(r.value)
    // With the directory present, a stored file sits directly inside it under its own name.
    ensures r.Success? && uploadDir ==> r.value == Path(false, UploadRoot.names + [fileName]) && r.value != UploadRoot
    // Without it, only "" and "." reach the file system, at the directory's own path.
    ensures r.Success? && !uploadDir ==> r.value == UploadRoot && (fileName == "" || fileName == ".")
    // Apart from other I/O failures, every accepted name is written in one of the two cases.
    ensures ResolveUploadPath(fileName).Success? && !writeFails ==>
      (r.Success? <==> (fileName == "" || fileName == ".") != uploadDir)
  {
    match ResolveUploadPath(fileName)
    case Failure(e) => Failure(e)
    case Success(path) =>
      assert |Path(false, UploadRoot.names + [fileName]).names| != |UploadRoot.names|;
      if writeFails || (path == UploadRoot) == uploadDir then Failure(SaveFailed) else Success(path)
  }

  /** "" and "." pass both checks of `saveFileToStorage` and denote the upload
      directory itself: without that directory the write creates a regular
      file named after it, whose path is returned; with it the write fails. */
  lemma RootNamesTargetRoot(fileName: string)
    requires fileName == "" || fileName == "."
    ensures StorageTarget(fileName, false, false) == Success(UploadRoot)
    ensures StorageTarget(fileName, true, false) == Failure(SaveFailed)
  {
    ContainsChar(fileName, '/');
    ContainsChar(fileName, '\\');
    if fileName == "." {
      assert forall i :: 0 <= i <= 1 ==> !(".." <= fileName[i..]);
    }
  }

  /** The links the course loop of `saveEncryptedPaper` saves for a paper:
      one per course id, in list order, up to the first id that names no
      course. */
  function CourseLinks(paperId: nat, courseIds: seq<nat>, courses: set<nat>): (links: seq<PaperCourse>)
    ensures |links| <= |courseIds|
  {
    if courseIds == [] || courseIds[0] !in courses then []
    else [PaperCourse(paperId, courseIds[0])] + CourseLinks(paperId, courseIds[1..], courses)
  }

  /** Link `i` ties the paper to `courseIds[i]`, a course, and the loop
      stops exactly at an id that is not one. */
  lemma {:induction false} CourseLinksRows(paperId: nat, courseIds: seq<nat>, courses: set<nat>)
    ensures var links := CourseLinks(paperId, courseIds, courses);
      && (forall i :: 0 <= i < |links| ==> courseIds[i] in courses && links[i] == PaperCourse(paperId, courseIds[i]))
      && (|links| < |courseIds| ==> courseIds[|links|] !in courses)
  {
    if courseIds != [] && courseIds[0] in courses {
      var rest := CourseLinks(paperId, courseIds[1..], courses);
      CourseLinksRows(paperId, courseIds[1..], courses);
      var links := CourseLinks(paperId, courseIds, courses);
      assert links == [PaperCourse(paperId, courseIds[0])] + rest;
      forall i | 1 <= i < |links|
        ensures courseIds[i] in courses && links[i] == PaperCourse(paperId, courseIds[i])
      {
        assert links[i] == rest[i - 1] && courseIds[i] == courseIds[1..][i - 1];
      }
      if |links| < |courseIds| {
        assert courseIds[|links|] == courseIds[1..][|rest|];
      }
    }
  }

  /** Once every id of `a` is a course, the loop goes on with `b`. */
  lemma {:induction false} CourseLinksAppend(paperId: nat, a: seq<nat>, b: seq<nat>, courses: set<nat>)
    requires |CourseLinks(paperId, a, courses)| == |a|
    ensures CourseLinks(paperId, a + b, courses) == CourseLinks(paperId, a, courses) + CourseLinks(paperId, b, courses)
  {
    if a != [] {
      var head := [PaperCourse(paperId, a[0])];
      assert a[0] in courses;
      assert CourseLinks(paperId, a, courses) == head + CourseLinks(paperId, a[1..], courses);
      assert (a + b)[0] == a[0];
      assert (a + b)[1..] == a[1..] + b;
      assert CourseLinks(paperId, a + b, courses) == head + CourseLinks(paperId, a[1..] + b, courses);
      CourseLinksAppend(paperId, a[1..], b, courses);
    } else {
      assert a + b == b;
    }
  }

  /** A file system holding the upload directory has no regular file at
      its path; one without it holds no file inside it. */
  predicate DiskAgrees(disk: map<Path, string>, uploadDir: bool) {
    && (uploadDir ==> UploadRoot !in disk)
    && (forall p :: p in disk && StartsWith(p, UploadRoot) && p != UploadRoot ==> uploadDir)
  }

  predicate NoCourses(courseIds: Option<seq<nat>>) {
    courseIds.None? || courseIds.value == []
  }

  class FileService {
    /** Ids held by the user, course and academic-year repositories, which
        the service only reads. */
    const users: set<nat>
    const courses: set<nat>
    const academicYears: set<nat>
    /** Whether the upload directory exists as a directory; the service
        neither creates nor removes it. */
    const uploadDir: bool

    /** The encrypted-paper repository, by id. */
    var papers: map<nat, EncryptedPaper>
    /** The paper-course repository, in save order. */
    var paperCourses: seq<PaperCourse>
    /** The file system: the contents of each regular file. */
    var disk: map<Path, string>
    /** The id the next saved paper receives. */
    var nextPaperId: nat

    /** Every recorded paper is filed under its own id, below the next one,
        and the files agree with the upload directory's existence. */
    ghost predicate Valid()
      reads this
    {
      && (forall id :: id in papers ==> id < nextPaperId && papers[id].id == id)
      && DiskAgrees(disk, uploadDir)
    }

    constructor (users: set<nat>, courses: set<nat>, academicYears: set<nat>, uploadDir: bool, disk: map<Path, string>)
      requires DiskAgrees(disk, uploadDir)
      ensures Valid()
      ensures this.users == users && this.courses == courses && this.academicYears == academicYears
      ensures this.uploadDir == uploadDir
      ensures papers == map[] && paperCourses == [] && this.disk == disk
    {
      this.users := users;
      this.courses := courses;
      this.academicYears := academicYears;
      this.uploadDir := uploadDir;
      this.disk := disk;
      papers := map[];
      paperCourses := [];
      nextPaperId := 0;
    }

    /** `getEncryptedPaperById`: the record, or null. */
    function GetEncryptedPaperById(id: nat): (r: Option<EncryptedPaper>)
      requires Valid()
      reads this
      ensures r.Some? <==> id in papers
      ensures r.Some? ==> r.value.id == id && r.value in papers.Values
    {
      if id in papers then Some(papers[id]) else None
    }

    /** The contents of the file a recorded path string names, if there is one. */
    function StoredFile(filePath: string): Option<string>
      reads this
    {
      match Parse(filePath)
      case None => None
      case Some(path) => if path in disk then Some(disk[path]) else None
    }

    /** `saveFileToStorage`: the file is written where `StorageTarget` says,
        replacing any file there, and the printed path is returned. */
    method SaveFileToStorage(encryptedFile: string, fileName: string, writeFails: bool)
      returns (r: Result<string, Failure>)
      requires Valid()
      modifies this`disk
      ensures Valid()
      ensures StorageTarget(fileName, uploadDir, writeFails).Failure? ==>
        r == Failure(StorageTarget(fileName, uploadDir, writeFails).error) && disk == old(disk)
      ensures StorageTarget(fileName, uploadDir, writeFails).Success? ==>
        var path := StorageTarget(fileName, uploadDir, writeFails).value;
        && r == Success(ToString(path))
        && Parse(r.value) == Some(path)
        && disk == old(disk)[path := encryptedFile]
    {
      var target := ResolveUploadPath(fileName);
      if target.Failure? {
        return Failure(target.error);
      }
      var path := target.value;
      if writeFails || (path == UploadRoot) == uploadDir {
        return Failure(SaveFailed);
      }
      disk := disk[path := encryptedFile];
      ParseToString(path);
      return Success(ToString(path));
    }

    /** `saveEncryptedPaper`. */
    method SaveEncryptedPaper(encryptedFile: string, creatorId: nat, fileName: Option<string>,
                              moderatorId: nat, courseIds: Option<seq<nat>>, remarks: Option<string>,
                              academicYearId: nat, writeFails: bool)
      returns (r: Outcome<Failure>)
      requires Valid()
      modifies this
      ensures Valid()
      // Checked before anything is looked up, written or saved.
      ensures NoCourses(courseIds) ==> r == Fail(CourseIdsMissing) && unchanged(this)
      ensures !NoCourses(courseIds) && academicYearId !in academicYears ==>
        r == Fail(AcademicYearNotFound(academicYearId)) && unchanged(this)
      ensures !NoCourses(courseIds) && academicYearId in academicYears && fileName.None? ==>
        r == Fail(FileNameNull) && unchanged(this)
      // The file is stored next; a failure there leaves everything as it was.
      ensures !NoCourses(courseIds) && academicYearId in academicYears && fileName.Some? ==>
        var target := StorageTarget(fileName.value, uploadDir, writeFails);
        && (target.Failure? ==> r == Fail(target.error) && unchanged(this))
        && (target.Success? ==> disk == old(disk)[target.value := encryptedFile])
      // Creator and moderator are looked up only once the file is on disk.
      ensures !NoCourses(courseIds) && academicYearId in academicYears && fileName.Some? &&
              StorageTarget(fileName.value, uploadDir, writeFails).Success? && (creatorId !in users || moderatorId !in users) ==>
        && r == Fail(if creatorId !in users then CreatorNotFound else ModeratorNotFound)
        && papers == old(papers) && paperCourses == old(paperCourses) && nextPaperId == old(nextPaperId)
      // The record is saved, then one link per course id up to the first unknown one.
      ensures !NoCourses(courseIds) && academicYearId in academicYears && fileName.Some? &&
              StorageTarget(fileName.value, uploadDir, writeFails).Success? && creatorId in users && moderatorId in users ==>
        var id := old(nextPaperId);
        var path := ToString(StorageTarget(fileName.value, uploadDir, writeFails).value);
        var links := CourseLinks(id, courseIds.value, courses);
        && id !in old(papers)
        && nextPaperId == id + 1
        && papers == old(papers)[id := EncryptedPaper(id, fileName.value, path, creatorId, moderatorId, remarks, academicYearId)]
        && paperCourses == old(paperCourses) + links
        && r == (if |links| == |courseIds.value| then Pass else Fail(CourseNotFound(courseIds.value[|links|])))
        && StoredFile(path) == Some(encryptedFile)
    {
      if courseIds.None? || |courseIds.value| == 0 {
        return Fail(CourseIdsMissing);
      }
      if academicYearId !in academicYears {
        return Fail(AcademicYearNotFound(academicYearId));
      }
      if fileName.None? {
        return Fail(FileNameNull);
      }
      var stored := SaveFileToStorage(encryptedFile, fileName.value, writeFails);
      if stored.Failure? {
        return Fail(stored.error);
      }
      r := SaveRecord(fileName.value, stored.value, creatorId, moderatorId, remarks, academicYearId, courseIds.value);
    }

    /** The end of `saveEncryptedPaper`, once the file is stored: creator and
        moderator are looked up, the record saved, and the course links
        saved. */
    method SaveRecord(fileName: string, filePath: string, creatorId: nat, moderatorId: nat,
                      remarks: Option<string>, academicYearId: nat, courseIds: seq<nat>)
      returns (r: Outcome<Failure>)
      requires Valid()
      modifies this`papers, this`nextPaperId, this`paperCourses
      ensures Valid()
      ensures creatorId !in users || moderatorId !in users ==>
        && r == Fail(if creatorId !in users then CreatorNotFound else ModeratorNotFound)
        && papers == old(papers) && paperCourses == old(paperCourses) && nextPaperId == old(nextPaperId)
      ensures creatorId in users && moderatorId in users ==>
        var id := old(nextPaperId);
        var links := CourseLinks(id, courseIds, courses);
        && id !in old(papers)
        && nextPaperId == id + 1
        && papers == old(papers)[id := EncryptedPaper(id, fileName, filePath, creatorId, moderatorId, remarks, academicYearId)]
        && paperCourses == old(paperCourses) + links
        && r == (if |links| == |courseIds| then Pass else Fail(CourseNotFound(courseIds[|links|])))
    {
      if creatorId !in users {
        return Fail(CreatorNotFound);
      }
      if moderatorId !in users {
        return Fail(ModeratorNotFound);
      }
      var id := nextPaperId;
      papers := papers[id := EncryptedPaper(id, fileName, filePath, creatorId, moderatorId, remarks, academicYearId)];
      nextPaperId := nextPaperId + 1;

      r := SavePaperCourses(id, courseIds);
    }

    /** The loop at the end of `saveEncryptedPaper`: one link per course id,
        stopping at the first id the course repository does not hold. */
    method SavePaperCourses(paperId: nat, ids: seq<nat>) returns (r: Outcome<Failure>)
      modifies this`paperCourses
      ensures var links := CourseLinks(paperId, ids, courses);
        && paperCourses == old(paperCourses) + links
        && r == (if |links| == |ids| then Pass else Fail(CourseNotFound(ids[|links|])))
    {
      var i := 0;
      while i < |ids|
        invariant 0 <= i <= |ids|
        invariant |CourseLinks(paperId, ids[..i], courses)| == i
        invariant paperCourses == old(paperCourses) + CourseLinks(paperId, ids[..i], courses)
      {
        if ids[i] !in courses {
          CourseLinksAppend(paperId, ids[..i], ids[i..], courses);
          assert ids[..i] + ids[i..] == ids;
          return Fail(CourseNotFound(ids[i]));
        }
        CourseLinksAppend(paperId, ids[..i], [ids[i]], courses);
        assert ids[..i] + [ids[i]] == ids[..i + 1];
        paperCourses := paperCourses + [PaperCourse(paperId, ids[i])];
        i := i + 1;
      }
      assert ids[..i] == ids;
      return Pass;
    }

    /** `updateEncryptedPaper`: a partial update of the record. */
    method UpdateEncryptedPaper(paperId: nat, fileName: Option<string>, remarks: Option<string>)
      returns (r: Outcome<Failure>)
      requires Valid()
      modifies this`papers
      ensures Valid()
      ensures paperId !in old(papers) ==> r == Fail(EncryptedPaperNotFound(paperId)) && papers == old(papers)
      ensures paperId in old(papers) ==>
        var p := old(papers)[paperId];
        && r == Pass
        && papers == old(papers)[paperId := p.(
             fileName := if fileName.Some? && fileName.value != "" then fileName.value else p.fileName,
             remarks := if remarks.Some? then remarks else p.remarks)]
        && papers[paperId].filePath == p.filePath && papers[paperId].creatorId == p.creatorId
        && papers[paperId].moderatorId == p.moderatorId && papers[paperId].academicYearId == p.academicYearId
    {
      if paperId !in papers {
        return Fail(EncryptedPaperNotFound(paperId));
      }
      var paper := papers[paperId];
      if fileName.Some? && |fileName.value| != 0 {
        paper := paper.(fileName := fileName.value);
      }
      if remarks.Some? {
        paper := paper.(remarks := remarks);
      }
      papers := papers[paperId := paper];
      return Pass;
    }

    /** `deletePaperById`: the file first, the record afterwards. */
    method DeletePaperById(id: nat, deleteFails: bool) returns (r: Outcome<Failure>)
      requires Valid()
      modifies this`papers, this`disk
      ensures Valid()
      ensures id !in old(papers) ==> r == Fail(PaperNotFound) && unchanged(this)
      ensures id in old(papers) && Parse(old(papers)[id].filePath).None? ==>
        r == Fail(InvalidPath) && unchanged(this)
      ensures id in old(papers) && Parse(old(papers)[id].filePath).Some? && deleteFails ==>
        r == Fail(DeleteFailed) && unchanged(this)
      // A file that is already missing is not an error.
      ensures id in old(papers) && Parse(old(papers)[id].filePath).Some? && !deleteFails ==>
        && r == Pass
        && disk == old(disk) - {Parse(old(papers)[id].filePath).value}
        && papers == old(papers) - {id}
      ensures r.Pass? ==> GetEncryptedPaperById(id) == None && StoredFile(old(papers)[id].filePath) == None
    {
      if id !in papers {
        return Fail(PaperNotFound);
      }
      var path := Parse(papers[id].filePath);
      if path.None? {
        return Fail(InvalidPath);
      }
      if deleteFails {
        return Fail(DeleteFailed);
      }
      disk := disk - {path.value};
      papers := papers - {id};
      return Pass;
    }

    /** `decryptFileForUser`: reads the file a recorded path names and hands
        its contents to the decryption service, which is a parameter here:
        it yields the plaintext or the class of the exception it throws. An
        `IOException`, from the read or from the decryption, is rethrown as
        the read failure. */
    method DecryptFileForUser(userId: nat, filePath: string, readFails: bool,
                              decryptForUser: (nat, string) -> Result<seq<bv8>, ExceptionClass>)
      returns (r: Result<seq<bv8>, Failure>)
      ensures Parse(filePath).None? ==> r == Failure(InvalidPath)
      ensures Parse(filePath).Some? && (readFails || StoredFile(filePath).None?) ==> r == Failure(ReadFailed)
      ensures Parse(filePath).Some? && !readFails && StoredFile(filePath).Some? ==>
        var d := decryptForUser(userId, StoredFile(filePath).value);
        r == if d.Success? then Success(d.value)
             else if d.error == IOException then Failure(ReadFailed)
             else Failure(DecryptionFailed(d.error))
      ensures r.Failure? ==> ClassOf(r.error) != IOException
    {
      var path := Parse(filePath);
      if path.None? {
        return Failure(InvalidPath);
      }
      if readFails || path.value !in disk {
        return Failure(ReadFailed);
      }
      var d := decryptForUser(userId, disk[path.value]);
      if d.Failure? && d.error == IOException {
        return Failure(ReadFailed);
      }
      if d.Failure? {
        return Failure(DecryptionFailed(d.error));
      }
      return Success(d.value);
    }
  }
}
