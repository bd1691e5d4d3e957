/** The upload pipeline in front of both `handleUpload` handlers: the
    uploader's multer configuration (file filter, size limit, stored file
    name) and the video metadata both handlers derive from the form. */
module Uploads {
  import opened Values

  /** The multipart file part as multer sees it before storing it */
  datatype UploadedFile = UploadedFile(originalname: string, mimetype: Option<string>, size: nat)

  /** `limits.fileSize`: 100 MiB */
  const MaxFileSize: nat := 100 * 1024 * 1024

  /** `fileFilter`: only a file whose mimetype starts with `video/` is taken. */
  predicate AcceptsFile(f: UploadedFile) {
    f.mimetype.Some? && StartsWith(f.mimetype.value, "video/")
  }

  /** `name.replace(/\s+/g, '_')` with the scan state made explicit: `inRun`
      says that the previous character was white space, already replaced by
      an underscore. */
  function Collapse(s: string, inRun: bool): (r: string)
    ensures |r| <= |s|
    ensures !inRun ==> (r == [] <==> s == [])
  {
    if s == [] then []
    else if IsSpace(s[0]) then (if inRun then Collapse(s[1..], true) else "_" + Collapse(s[1..], true))
    else [s[0]] + Collapse(s[1..], false)
  }

  /** Every run of white space becomes a single underscore. */
  function CollapseSpaces(s: string): (r: string)
    ensures |r| <= |s|
    ensures r == [] <==> s == []
  {
    Collapse(s, false)
  }

  /** The collapsed name holds no white space at all. */
  lemma {:induction false} CollapseHasNoSpace(s: string, inRun: bool)
    ensures forall i :: 0 <= i < |Collapse(s, inRun)| ==> !IsSpace(Collapse(s, inRun)[i])
  {
    if s != [] {
      var rest := Collapse(s[1..], IsSpace(s[0]));
      CollapseHasNoSpace(s[1..], IsSpace(s[0]));
      var r := Collapse(s, inRun);
      if r != rest {
        assert r == [r[0]] + rest && !IsSpace(r[0]);
        forall i | 1 <= i < |r| ensures !IsSpace(r[i]) {
          assert r[i] == rest[i - 1];
        }
      }
    }
  }

  lemma CollapseSpacesHasNoSpace(s: string)
    ensures forall i :: 0 <= i < |CollapseSpaces(s)| ==> !IsSpace(CollapseSpaces(s)[i])
  {
    CollapseHasNoSpace(s, false);
  }

  /** A name without white space is stored as it is. */
  lemma {:induction false} CollapseSpacesKeepsPlainNames(s: string)
    requires forall i :: 0 <= i < |s| ==> !IsSpace(s[i])
    ensures CollapseSpaces(s) == s
  {
    if s != [] {
      assert forall i :: 0 <= i < |s[1..]| ==> !IsSpace(s[1..][i]) by {
        forall i | 0 <= i < |s[1..]| ensures !IsSpace(s[1..][i]) { assert s[1..][i] == s[i + 1]; }
      }
      CollapseSpacesKeepsPlainNames(s[1..]);
      assert !IsSpace(s[0]);
    }
  }

  /** A name with a space and a tab in a row keeps one underscore per run. */
  lemma CollapseSpacesExample()
    ensures CollapseSpaces("a \tb") == "a_b"
  {
    assert Collapse("b", true) == "b";
    assert Collapse("\tb", true) == "b";
    assert Collapse(" \tb", false) == "_b";
  }

  /** Collapsing twice is collapsing once. */
  lemma CollapseSpacesIdempotent(s: string)
    ensures CollapseSpaces(CollapseSpaces(s)) == CollapseSpaces(s)
  {
    CollapseSpacesHasNoSpace(s);
    CollapseSpacesKeepsPlainNames(CollapseSpaces(s));
  }

  /** Whether the scan is inside a run of white space after reading `a`,
      starting in state `inRun` */
  function RunAfter(a: string, inRun: bool): bool {
    if a == [] then inRun else IsSpace(a[|a| - 1])
  }

  /** The scan over `a + b` is the scan over `a` followed by the scan over
      `b`, started in the state `a` leaves behind. */
  lemma {:induction false} CollapseAppend(a: string, b: string, inRun: bool)
    ensures Collapse(a + b, inRun) == Collapse(a, inRun) + Collapse(b, RunAfter(a, inRun))
  {
    if a == [] {
      assert a + b == b;
    } else {
      var head: string := if IsSpace(a[0]) then (if inRun then "" else "_") else [a[0]];
      assert (a + b)[0] == a[0];
      assert (a + b)[1..] == a[1..] + b;
      assert Collapse(a + b, inRun) == head + Collapse(a[1..] + b, IsSpace(a[0]));
      assert Collapse(a, inRun) == head + Collapse(a[1..], IsSpace(a[0]));
      CollapseAppend(a[1..], b, IsSpace(a[0]));
      assert RunAfter(a[1..], IsSpace(a[0])) == RunAfter(a, inRun);
    }
  }

  /** A non-empty run of white space yields one underscore, or nothing when
      the scan is already inside a run. */
  lemma {:induction false} CollapseRun(w: string, inRun: bool)
    requires w != [] && forall i :: 0 <= i < |w| ==> IsSpace(w[i])
    ensures Collapse(w, inRun) == if inRun then "" else "_"
  {
    if |w| > 1 {
      assert forall i :: 0 <= i < |w[1..]| ==> IsSpace(w[1..][i]) by {
        forall i | 0 <= i < |w[1..]| ensures IsSpace(w[1..][i]) { assert w[1..][i] == w[i + 1]; }
      }
      CollapseRun(w[1..], true);
    } else {
      assert w[1..] == [];
    }
    assert IsSpace(w[0]);
  }

  /** Each maximal run of white space becomes exactly one underscore, and
      the text on either side is collapsed on its own. */
  lemma CollapseSpacesRun(a: string, w: string, b: string)
    requires w != [] && forall i :: 0 <= i < |w| ==> IsSpace(w[i])
    requires a == [] || !IsSpace(a[|a| - 1])
    requires b == [] || !IsSpace(b[0])
    ensures CollapseSpaces(a + w + b) == CollapseSpaces(a) + "_" + CollapseSpaces(b)
  {
    assert a + w + b == a + (w + b);
    CollapseAppend(a, w + b, false);
    CollapseAppend(w, b, false);
    CollapseRun(w, false);
    assert RunAfter(w, false);
    assert Collapse(b, true) == Collapse(b, false);
  }

  /** The disk `filename` callback: `Date.now() + '-' + collapsed name`. */
  function StoredFileName(now: nat, originalname: string): (name: string)
    ensures forall i :: 0 <= i < |name| ==> !IsSpace(name[i])
  {
    var stamp := NatToString(now);
    assert forall i :: 0 <= i < |stamp| ==> !IsSpace(stamp[i]) by {
      forall i | 0 <= i < |stamp| ensures !IsSpace(stamp[i]) { assert IsDigit(stamp[i]); }
    }
    CollapseSpacesHasNoSpace(originalname);
    stamp + "-" + CollapseSpaces(originalname)
  }

  /** The upload time can be read back from a stored name: it is the number
      before the first `-`. */
  lemma StoredFileNameTimestamp(now: nat, originalname: string)
    ensures var name := StoredFileName(now, originalname);
            var dash := FirstIndex(name, (c: char) => c == '-');
            dash.Some? && StringToNumber(name[..dash.value]) == Some(now)
  {
    var stamp := NatToString(now);
    var name := StoredFileName(now, originalname);
    assert name[|stamp|] == '-';
    assert forall j :: 0 <= j < |stamp| ==> name[j] == stamp[j] && IsDigit(stamp[j]);
    var dash := FirstIndex(name, (c: char) => c == '-');
    assert dash == Some(|stamp|);
    assert name[..|stamp|] == stamp;
    NumberOfNatString(now);
  }

  /** The public path stored in `videoFilePath` */
  function VideoPath(filename: string): (path: string)
    ensures path != "" && StartsWith(path, "/uploads/videos/")
    ensures path[|"/uploads/videos/"|..] == filename
  {
    "/uploads/videos/" + filename
  }

  /** What multer hands the handler: no file part, a refused file (filter or
      size limit: the error goes to Express's default handler, a 500), or a
      stored file with its name. */
  datatype Received = NoFile | Refused | Stored(file: UploadedFile, filename: string)

  /** The uploader's multer: filter, then size limit, then the disk name. */
  function ReceiveChecked(part: Option<UploadedFile>, now: nat): (r: Received)
    ensures r == NoFile <==> part.None?
    ensures r.Stored? <==> part.Some? && AcceptsFile(part.value) && part.value.size <= MaxFileSize
    ensures r.Stored? ==> r.file == part.value && r.filename == StoredFileName(now, part.value.originalname)
  {
    match part
    case None => NoFile
    case Some(f) =>
      if !AcceptsFile(f) || f.size > MaxFileSize then Refused
      else Stored(f, StoredFileName(now, f.originalname))
  }

  /** The admin's `multer({ dest })`: no filter and no limit; the file gets
      multer's random name, passed in as `randomName`. */
  function ReceiveAny(part: Option<UploadedFile>, randomName: string): (r: Received)
    ensures r == NoFile <==> part.None?
    ensures part.Some? ==> r == Stored(part.value, randomName)
  {
    match part
    case None => NoFile
    case Some(f) => Stored(f, randomName)
  }

  /** The new video's title, duration and order */
  datatype Metadata = Metadata(title: string, duration: int, order: int)

  /** `title || originalname`, `Number(duration) || 0`, `Number(order) || 0` */
  function MetadataOf(form: Form, originalname: string): (m: Metadata)
    ensures "title" in form && form["title"] != "" ==> m.title == form["title"]
    ensures !("title" in form && form["title"] != "") ==> m.title == originalname
    ensures ToNumber(AsValue(Field(form, "duration"))).None? ==> m.duration == 0
    ensures ToNumber(AsValue(Field(form, "order"))).None? ==> m.order == 0
    ensures ToNumber(AsValue(Field(form, "order"))).Some? ==> m.order == ToNumber(AsValue(Field(form, "order"))).value
    ensures ToNumber(AsValue(Field(form, "duration"))).Some? ==> m.duration == ToNumber(AsValue(Field(form, "duration"))).value
  {
    Metadata(Or(Field(form, "title"), originalname),
             NumberOr(AsValue(Field(form, "duration")), 0),
             NumberOr(AsValue(Field(form, "order")), 0))
  }
}
