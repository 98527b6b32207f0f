/** The identity-enrollment gate: the credential allow-list, the vessel
    identifier normalisation and the key-file path a public key is saved
    under. The file system is a map from path to content. */
module Identity {
  import opened Wrappers

  const VesselsPrefix: string := "vessels."
  const KeyFileSuffix: string := "-public.pem"

  predicate StartsWith(s: string, prefix: string) {
    |prefix| <= |s| && s[..|prefix|] == prefix
  }

  predicate EndsWith(s: string, suffix: string) {
    |suffix| <= |s| && s[|s| - |suffix|..] == suffix
  }

  /** Prepend `vessels.` unless it is already there. */
  function Normalize(id: string): (r: string)
    ensures StartsWith(r, VesselsPrefix)
    ensures EndsWith(r, id)
    ensures |r| == |id| || |r| == |VesselsPrefix| + |id|
  {
    if StartsWith(id, VesselsPrefix) then id else VesselsPrefix + id
  }

  /** Normalising twice is normalising once. */
  lemma NormalizeIdempotent(id: string)
    ensures Normalize(Normalize(id)) == Normalize(id)
  {
  }

  /** A bare identifier and its prefixed form name the same vessel. */
  lemma NormalizeBareAndPrefixed(id: string)
    ensures Normalize(VesselsPrefix + id) == VesselsPrefix + id
    ensures !StartsWith(id, VesselsPrefix) ==> Normalize(id) == Normalize(VesselsPrefix + id)
  {
    assert (VesselsPrefix + id)[..|VesselsPrefix|] == VesselsPrefix;
  }

  /** POSIX `os.path.join(root, name)`: an absolute `name` replaces the root;
      otherwise a `/` is inserted unless `root` is empty or already ends in one. */
  function JoinPath(root: string, name: string): string {
    if StartsWith(name, "/") then name
    else if root == "" || EndsWith(root, "/") then root + name
    else root + "/" + name
  }

  /** The file name of a vessel's public key, relative to the key root. */
  function KeyFileName(selfId: string): (name: string)
    ensures !StartsWith(name, "/")
  {
    var name := Normalize(selfId) + KeyFileSuffix;
    assert name[0] == 'v';
    name
  }

  /** The file a vessel's public key is written to. */
  function KeyFilePath(root: string, selfId: string): (path: string)
    ensures EndsWith(path, Normalize(selfId) + KeyFileSuffix)
    ensures StartsWith(path, root)
    ensures path == if root == "" || EndsWith(root, "/") then root + Normalize(selfId) + KeyFileSuffix
                    else root + "/" + Normalize(selfId) + KeyFileSuffix
  {
    var name := KeyFileName(selfId);
    var glue := if root == "" || EndsWith(root, "/") then root else root + "/";
    var path := JoinPath(root, name);
    assert path == glue + name;
    assert glue + name == glue + Normalize(selfId) + KeyFileSuffix;
    assert path[..|root|] == root by {
      assert path[..|root|] == glue[..|root|];
    }
    assert path[|path| - |name|..] == name;
    path
  }

  /** Two vessels share a key file exactly when their normalised
      identifiers coincide. */
  lemma KeyFilePathsDistinct(root: string, a: string, b: string)
    ensures KeyFilePath(root, a) == KeyFilePath(root, b) <==> Normalize(a) == Normalize(b)
  {
    if KeyFilePath(root, a) == KeyFilePath(root, b) {
      JoinPathInjective(root, KeyFileName(a), KeyFileName(b));
      AppendCancel(Normalize(a), Normalize(b), KeyFileSuffix);
    }
  }

  lemma AppendCancel(x: string, y: string, suffix: string)
    requires x + suffix == y + suffix
    ensures x == y
  {
    assert |x| == |y|;
    assert x == (x + suffix)[..|x|];
    assert y == (y + suffix)[..|y|];
  }

  /** Below a fixed root, different relative names give different paths. */
  lemma JoinPathInjective(root: string, n1: string, n2: string)
    requires !StartsWith(n1, "/") && !StartsWith(n2, "/")
    requires JoinPath(root, n1) == JoinPath(root, n2)
    ensures n1 == n2
  {
    var glue := if root == "" || EndsWith(root, "/") then root else root + "/";
    assert JoinPath(root, n1) == glue + n1;
    assert JoinPath(root, n2) == glue + n2;
    assert n1 == (glue + n1)[|glue|..];
    assert n2 == (glue + n2)[|glue|..];
  }

  /** The username/password pairs the credential callback accepts. */
  const AllowList: set<(string, string)> := {("admin", "password"), ("user", "password")}

  /** Python truthiness of an optional string: present and non-empty. */
  predicate Truthy(s: Option<string>) {
    s.Some? && s.value != ""
  }

  function Authenticate(username: Option<string>, password: Option<string>): (ok: bool)
    ensures ok <==> username.Some? && password.Some? && (username.value, password.value) in AllowList
  {
    if Truthy(username) && Truthy(password) then
      (username.value == "admin" && password.value == "password")
      || (username.value == "user" && password.value == "password")
    else false
  }

  /** An absent or empty username or password is always refused. */
  lemma EmptyCredentialRefused(username: Option<string>, password: Option<string>)
    requires !Truthy(username) || !Truthy(password)
    ensures !Authenticate(username, password)
  {
  }

  /** The `key` member of the JSON request body as the handler reads it:
      missing (or a body that is not a JSON object), a JSON string, or a
      JSON value of another type (`null`, a number, a list, an object). */
  datatype KeyField = Missing | Text(content: string) | NotText

  datatype EnrollStatus =
    | Unauthorized
    | MalformedBody
    | WriteFailed(path: string)
    | Saved(path: string, user: string)

  datatype Enrollment = Enrollment(status: EnrollStatus, files: map<string, string>)

  /** `POST /upload/publickey/<self_id>`: the credential is checked first; a
      body without a `key` fails before anything is written; otherwise the
      key file of the normalised identifier is opened for writing, which
      empties it, and the key is written. A key that is not a string makes
      the write raise after the file was emptied; a string key replaces the
      file's content wholesale and the acting user is reported. */
  function Enroll(username: Option<string>, password: Option<string>, selfId: string,
                  key: KeyField, root: string, files: map<string, string>): (e: Enrollment)
    ensures e.status.Unauthorized? <==> !Authenticate(username, password)
    ensures e.status.MalformedBody? <==> Authenticate(username, password) && key.Missing?
    ensures e.status.WriteFailed? <==> Authenticate(username, password) && key.NotText?
    ensures e.status.Saved? <==> Authenticate(username, password) && key.Text?
    ensures e.status.Unauthorized? || e.status.MalformedBody? ==> e.files == files
    ensures e.status.WriteFailed? ==>
      e.status.path == KeyFilePath(root, selfId) && e.files == files[e.status.path := ""]
    ensures e.status.Saved? ==>
      && e.status.path == KeyFilePath(root, selfId)
      && Some(e.status.user) == username
      && e.files.Keys == files.Keys + {e.status.path}
      && e.files[e.status.path] == key.content
      && forall p :: p in files && p != e.status.path ==> e.files[p] == files[p]
  {
    if !Authenticate(username, password) then Enrollment(Unauthorized, files)
    else
      var path := KeyFilePath(root, selfId);
      match key
      case Missing => Enrollment(MalformedBody, files)
      case NotText => Enrollment(WriteFailed(path), files[path := ""])
      case Text(content) => Enrollment(Saved(path, username.value), files[path := content])
  }

  /** A key of the wrong type destroys the vessel's previously saved key:
      the file is left empty although the request fails. */
  lemma FailedWriteErasesKey(username: Option<string>, password: Option<string>, selfId: string,
                             earlier: string, root: string, files: map<string, string>)
    requires Authenticate(username, password)
    ensures
      var saved := Enroll(username, password, selfId, Text(earlier), root, files).files;
      var after := Enroll(username, password, selfId, NotText, root, saved);
      && after.status.WriteFailed?
      && KeyFilePath(root, selfId) in after.files
      && after.files[KeyFilePath(root, selfId)] == ""
  {
  }

  /** A refused credential never creates or changes a key file, whatever
      the identifier and content. */
  lemma RefusedEnrollmentWritesNothing(username: Option<string>, password: Option<string>, selfId: string,
                                        key: KeyField, root: string, files: map<string, string>)
    requires !Authenticate(username, password)
    ensures Enroll(username, password, selfId, key, root, files).files == files
  {
  }

  /** Re-enrolling replaces the earlier key entirely: the file store is as
      if only the second enrollment had happened. */
  lemma ReEnrollmentReplaces(username: Option<string>, password: Option<string>, selfId: string,
                             first: string, second: string, root: string, files: map<string, string>)
    requires Authenticate(username, password)
    ensures
      var once := Enroll(username, password, selfId, Text(first), root, files).files;
      Enroll(username, password, selfId, Text(second), root, once).files
        == Enroll(username, password, selfId, Text(second), root, files).files
  {
  }

  /** Enrollments of vessels with different normalised identifiers do not
      interfere: they commute, and each keeps the other's file. */
  lemma DistinctVesselsIndependent(username: Option<string>, password: Option<string>, a: string, b: string,
                                   keyA: string, keyB: string, root: string, files: map<string, string>)
    requires Authenticate(username, password)
    requires Normalize(a) != Normalize(b)
    ensures
      var ab := Enroll(username, password, b, Text(keyB), root,
                  Enroll(username, password, a, Text(keyA), root, files).files).files;
      var ba := Enroll(username, password, a, Text(keyA), root,
                  Enroll(username, password, b, Text(keyB), root, files).files).files;
      && ab == ba
      && KeyFilePath(root, a) in ab && ab[KeyFilePath(root, a)] == keyA
      && KeyFilePath(root, b) in ab && ab[KeyFilePath(root, b)] == keyB
  {
    var pa, pb := KeyFilePath(root, a), KeyFilePath(root, b);
    KeyFilePathsDistinct(root, a, b);
    var fa := Enroll(username, password, a, Text(keyA), root, files).files;
    var fb := Enroll(username, password, b, Text(keyB), root, files).files;
    EnrollWrites(username, password, a, keyA, root, files);
    EnrollWrites(username, password, b, keyB, root, files);
    EnrollWrites(username, password, b, keyB, root, fa);
    EnrollWrites(username, password, a, keyA, root, fb);
    UpdateCommute(files, pa, keyA, pb, keyB);
  }

  /** Writing two different paths gives the same store in either order. */
  lemma UpdateCommute<K, V>(m: map<K, V>, k1: K, v1: V, k2: K, v2: V)
    requires k1 != k2
    ensures m[k1 := v1][k2 := v2] == m[k2 := v2][k1 := v1]
  {
  }

  /** An accepted enrollment is a single overwrite of the vessel's key file. */
  lemma EnrollWrites(username: Option<string>, password: Option<string>, selfId: string,
                     key: string, root: string, files: map<string, string>)
    requires Authenticate(username, password)
    ensures Enroll(username, password, selfId, Text(key), root, files).files == files[KeyFilePath(root, selfId) := key]
  {
  }

  /** A bare identifier is normalised before the path is built:
      `abc123` is saved as `vessels.abc123-public.pem` under the root, the
      same file as for `vessels.abc123`. */
  lemma BareIdentifierPath(root: string)
    ensures KeyFilePath(root, "abc123") == JoinPath(root, "vessels.abc123-public.pem")
    ensures KeyFilePath(root, "abc123") == KeyFilePath(root, "vessels.abc123")
  {
    assert Normalize("abc123") == "vessels.abc123" by {
      assert !StartsWith("abc123", VesselsPrefix);
      assert VesselsPrefix + "abc123" == "vessels.abc123";
    }
    assert Normalize("vessels.abc123") == "vessels.abc123" by {
      assert "vessels.abc123"[..|VesselsPrefix|] == VesselsPrefix;
    }
    assert "vessels.abc123" + KeyFileSuffix == "vessels.abc123-public.pem";
  }
}
