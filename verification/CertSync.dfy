/**
 The certificate mirror (certsync/certsync.go): a directory kept in a bucket. The S3 API and the
 file system answer as they please, call by call; the two maps are what they have come to hold.
 */
module CertSync {
  import opened Options

  type Bytes = seq<bv8>

  // ------------------------------------------------------------------ names and keys

  predicate HasSuffix(s: string, suffix: string) {
    |suffix| <= |s| && s[|s| - |suffix|..] == suffix
  }

  predicate HasPrefix(s: string, prefix: string) {
    |prefix| <= |s| && s[..|prefix|] == prefix
  }

  function TrimPrefix(s: string, prefix: string): string {
    if HasPrefix(s, prefix) then s[|prefix|..] else s
  }

  /** The prefix a Syncer works with. */
  function Normalise(prefix: string): (p: string)
    ensures p == "" || HasSuffix(p, "/")
    ensures
      var rest := if prefix != "" && prefix[0] == '/' then prefix[1..] else prefix;
      p == rest || (p == rest + "/" && rest != "")
  {
    var p := TrimPrefix(prefix, "/");
    if p != "" && !HasSuffix(p, "/") then p + "/" else p
  }

  /** One leading slash is trimmed, not all: a prefix is in normal form afterwards exactly when it
      did not begin with two. */
  lemma NormaliseIdempotentIff(prefix: string)
    ensures Normalise(Normalise(prefix)) == Normalise(prefix) <==> !("//" <= prefix)
  {
  }

  const ACCOUNT_KEY := "acme-account.key.pem"

  /** The name ends in a dot and these three letters. */
  predicate HasExtension(name: string, a: char, b: char, c: char) {
    var n := |name|;
    n >= 4 && name[n - 4] == '.' && name[n - 3] == a && name[n - 2] == b && name[n - 1] == c
  }

  predicate IsCertFile(name: string) {
    name == ACCOUNT_KEY || HasExtension(name, 'c', 'r', 't') || HasExtension(name, 'k', 'e', 'y')
  }

  /** The three shapes of a certificate file's name. */
  lemma IsCertFileIff(name: string)
    ensures IsCertFile(name) <==>
      || name == "acme-account.key.pem"
      || (exists base :: name == base + ".crt")
      || (exists base :: name == base + ".key")
  {
    if HasExtension(name, 'c', 'r', 't') {
      assert name == name[..|name| - 4] + ".crt";
    }
    if HasExtension(name, 'k', 'e', 'y') {
      assert name == name[..|name| - 4] + ".key";
    }
  }

  /** A bare file name of the kind that is mirrored. */
  predicate Mirrored(name: string) {
    name != "" && '/' !in name && IsCertFile(name)
  }

  function TempName(name: string): string {
    name + ".tmp"
  }

  /** The temporary file of a download is never mistaken for a certificate. */
  lemma TempNotCert(name: string)
    ensures !IsCertFile(TempName(name)) && TempName(name) != name
  {
    var t := TempName(name);
    assert t[|t| - 1] == 'p' && ACCOUNT_KEY[|ACCOUNT_KEY| - 1] == 'm';
  }

  // ------------------------------------------------------------------ what the world answers

  datatype Dir = Dir(files: map<string, Bytes>)

  datatype Entry = Entry(name: string, isDir: bool)

  /** Reading a local file, and then putting it. */
  datatype Upload = Data(data: Bytes, put: bool) | Missing | ReadError

  /** Fetching an object, writing it to a temporary file and renaming that. */
  datatype Download =
    | Fetched(data: Bytes)
    | NotFetched
    | NotWritten(left: Option<Bytes>)
    | NotRenamed(data: Bytes)

  datatype Page = Page(keys: seq<string>, truncated: bool)

  /** The answers to the list calls, page by page; None is a call that failed. */
  type Listing = seq<Option<Page>>

  // ------------------------------------------------------------------ the sweep

  function Uploaded(bucket: map<string, Bytes>, prefix: string, name: string, u: Upload): map<string, Bytes> {
    if u.Data? && u.put then bucket[prefix + name := u.data] else bucket
  }

  predicate UploadFails(u: Upload) {
    u.ReadError? || (u.Data? && !u.put)
  }

  predicate Uploads(e: Entry) {
    !e.isDir && IsCertFile(e.name)
  }

  function Swept(bucket: map<string, Bytes>, prefix: string, es: seq<Entry>, us: nat -> Upload): map<string, Bytes> {
    if es == [] then bucket
    else
      var last := |es| - 1;
      var before := Swept(bucket, prefix, es[..last], us);
      if Uploads(es[last]) then Uploaded(before, prefix, es[last].name, us(last)) else before
  }

  function SweepErrors(es: seq<Entry>, us: nat -> Upload): seq<string> {
    if es == [] then []
    else
      var last := |es| - 1;
      SweepErrors(es[..last], us) + (if Uploads(es[last]) && UploadFails(us(last)) then [es[last].name] else [])
  }

  // ------------------------------------------------------------------ the download

  function Downloaded(dir: Dir, name: string, d: Download): Dir {
    match d
    case Fetched(data) => Dir((dir.files - {TempName(name)})[name := data])
    case NotFetched => dir
    case NotWritten(left) => if left.Some? then Dir(dir.files[TempName(name) := left.value]) else dir
    case NotRenamed(data) => Dir(dir.files[TempName(name) := data])
  }

  /** A hydration under way: the directory, the names that failed, how many keys have been listed. */
  datatype Hydration = Hydration(dir: Dir, errs: seq<string>, at: nat)

  /** One listed key; nested keys and other files are skipped. */
  function HydrateKey(h: Hydration, prefix: string, key: string, d: Download): Hydration {
    var name := TrimPrefix(key, prefix);
    if !Mirrored(name) then h.(at := h.at + 1)
    else
      Hydration(Downloaded(h.dir, name, d), if d.Fetched? then h.errs else h.errs + [name], h.at + 1)
  }

  /** The first n of some listed keys. */
  function HydrateKeys(h: Hydration, prefix: string, keys: seq<string>, n: nat, ds: nat -> Download): Hydration
    requires n <= |keys|
  {
    if n == 0 then h
    else
      var before := HydrateKeys(h, prefix, keys, n - 1, ds);
      HydrateKey(before, prefix, keys[n - 1], ds(before.at))
  }

  /** The first n pages. */
  function HydratePages(h: Hydration, prefix: string, l: Listing, n: nat, ds: nat -> Download): Hydration
    requires Answered(l, n)
  {
    if n == 0 then h
    else
      var keys := l[n - 1].value.keys;
      HydrateKeys(HydratePages(h, prefix, l, n - 1, ds), prefix, keys, |keys|, ds)
  }

  predicate Answered(l: Listing, n: nat) {
    n <= |l| && forall p :: 0 <= p < n ==> l[p].Some?
  }

  /** The keys of the first n pages. */
  function KeysUpTo(l: Listing, n: nat): seq<string>
    requires Answered(l, n)
  {
    if n == 0 then [] else KeysUpTo(l, n - 1) + l[n - 1].value.keys
  }

  /** Pages 0 to n - 1 are the whole listing. */
  predicate Whole(l: Listing, n: nat) {
    && 0 < n && Answered(l, n)
    && (forall p :: 0 <= p < n ==> (l[p].value.truncated <==> p < n - 1))
  }

  class Syncer {
    const prefix: string
    var dir: Dir
    var bucket: map<string, Bytes>

    constructor (prefix: string, dir: Dir, bucket: map<string, Bytes>)
      ensures this.prefix == Normalise(prefix) && this.dir == dir && this.bucket == bucket
    {
      this.prefix := Normalise(prefix);
      this.dir, this.bucket := dir, bucket;
    }

    /** A file that is gone by now is no error. */
    method UploadFile(name: string, u: Upload) returns (failed: bool)
      modifies this`bucket
      ensures bucket == Uploaded(old(bucket), prefix, name, u) && failed == UploadFails(u)
    {
      if u.Missing? {
        return false;
      }
      if u.ReadError? || !u.put {
        return true;
      }
      bucket := bucket[prefix + name := u.data];
      return false;
    }

    /** `syncAll`: every file is tried, whatever became of the others. */
    method SyncAll(entries: Option<seq<Entry>>, us: nat -> Upload) returns (ok: bool, errs: seq<string>)
      modifies this`bucket
      ensures ok == entries.Some?
      ensures !ok ==> bucket == old(bucket) && errs == []
      ensures ok ==> bucket == Swept(old(bucket), prefix, entries.value, us)
      ensures ok ==> errs == SweepErrors(entries.value, us)
    {
      errs := [];
      if entries.None? {
        return false, errs;
      }
      var es := entries.value;
      for i := 0 to |es|
        invariant bucket == Swept(old(bucket), prefix, es[..i], us) && errs == SweepErrors(es[..i], us)
      {
        assert es[..i + 1][..i] == es[..i];
        if es[i].isDir || !IsCertFile(es[i].name) {
          continue;
        }
        var failed := UploadFile(es[i].name, us(i));
        if failed {
          errs := errs + [es[i].name];
        }
      }
      assert es[..|es|] == es;
      ok := true;
    }

    /** The loop body of `Hydrate`. */
    method HydrateObject(key: string, d: Download, errs0: seq<string>, ghost at: nat) returns (errs: seq<string>)
      modifies this`dir
      ensures Hydration(dir, errs, at + 1) == HydrateKey(Hydration(old(dir), errs0, at), prefix, key, d)
    {
      errs := errs0;
      var name := TrimPrefix(key, prefix);
      if name == "" || '/' in name || !IsCertFile(name) {
        return;
      }
      var failed := DownloadObject(name, d);
      if failed {
        errs := errs + [name];
      }
    }

    method DownloadObject(name: string, d: Download) returns (failed: bool)
      modifies this`dir
      ensures dir == Downloaded(old(dir), name, d) && failed == !d.Fetched?
    {
      if d.NotFetched? {
        return true;
      }
      var tmp := TempName(name);
      if d.NotWritten? {
        if d.left.Some? {
          dir := Dir(dir.files[tmp := d.left.value]);
        }
        return true;
      }
      dir := Dir(dir.files[tmp := d.data]);
      if d.NotRenamed? {
        return true;
      }
      assert dir.files - {tmp} == old(dir.files) - {tmp};
      dir := Dir((dir.files - {tmp})[name := d.data]);
      return false;
    }

    /** The objects of one page. */
    method HydratePage(keys: seq<string>, at: nat, ds: nat -> Download, errs0: seq<string>) returns (errs: seq<string>)
      modifies this`dir
      ensures Hydration(dir, errs, at + |keys|) ==
        HydrateKeys(Hydration(old(dir), errs0, at), prefix, keys, |keys|, ds)
    {
      errs := errs0;
      for i := 0 to |keys|
        invariant Hydration(dir, errs, at + i) == HydrateKeys(Hydration(old(dir), errs0, at), prefix, keys, i, ds)
      {
        errs := HydrateObject(keys[i], ds(at + i), errs, at + i);
      }
    }

    /** `Hydrate`: `n` is the number of pages that were read. */
    method Hydrate(l: Listing, ds: nat -> Download) returns (ok: bool, errs: seq<string>, ghost n: nat)
      modifies this`dir
      ensures Answered(l, n) && (ok <==> Whole(l, n))
      ensures
        var h := HydratePages(Hydration(old(dir), [], 0), prefix, l, n, ds);
        dir == h.dir && errs == h.errs
    {
      ok, errs, n := false, [], 0;
      var p: nat, at: nat := 0, 0;
      while true
        invariant AllTruncated(l, p) && n == p
        invariant Hydration(dir, errs, at) == HydratePages(Hydration(old(dir), [], 0), prefix, l, p, ds)
        decreases |l| - p
      {
        if p >= |l| || l[p].None? {
          NotWhole(l, p);
          return;
        }
        var page := l[p].value;
        errs := HydratePage(page.keys, at, ds, errs);
        at, n := at + |page.keys|, p + 1;
        if !page.truncated {
          ok := true;
          return;
        }
        p := p + 1;
      }
    }
  }

  // ------------------------------------------------------------------ pages do not matter

  lemma {:induction false} SameStart(h: Hydration, prefix: string, keys: seq<string>, more: seq<string>, n: nat,
                                     ds: nat -> Download)
    requires n <= |keys| && keys <= more
    ensures HydrateKeys(h, prefix, more, n, ds) == HydrateKeys(h, prefix, keys, n, ds)
  {
    if n > 0 {
      SameStart(h, prefix, keys, more, n - 1, ds);
    }
  }

  lemma {:induction false} KeysMore(h: Hydration, prefix: string, a: seq<string>, b: seq<string>, m: nat,
                                    ds: nat -> Download)
    requires m <= |b|
    ensures HydrateKeys(h, prefix, a + b, |a| + m, ds) ==
      HydrateKeys(HydrateKeys(h, prefix, a, |a|, ds), prefix, b, m, ds)
  {
    if m == 0 {
      SameStart(h, prefix, a, a + b, |a|, ds);
    } else {
      KeysMore(h, prefix, a, b, m - 1, ds);
      assert (a + b)[|a| + m - 1] == b[m - 1];
    }
  }

  lemma OnePageMore(h: Hydration, prefix: string, l: Listing, n: nat, ds: nat -> Download, before: Hydration)
    requires Answered(l, n + 1) && Answered(l, n)
    requires before == HydrateKeys(h, prefix, KeysUpTo(l, n), |KeysUpTo(l, n)|, ds)
    ensures HydrateKeys(before, prefix, l[n].value.keys, |l[n].value.keys|, ds) ==
      HydrateKeys(h, prefix, KeysUpTo(l, n + 1), |KeysUpTo(l, n + 1)|, ds)
  {
    KeysMore(h, prefix, KeysUpTo(l, n), l[n].value.keys, |l[n].value.keys|, ds);
  }

  /** However the listing is cut into pages, the hydration is that of its keys in order. */
  lemma {:induction false} PagesAreKeys(h: Hydration, prefix: string, l: Listing, n: nat, ds: nat -> Download)
    requires Answered(l, n)
    ensures HydratePages(h, prefix, l, n, ds) ==
      HydrateKeys(h, prefix, KeysUpTo(l, n), |KeysUpTo(l, n)|, ds)
  {
    if n > 0 {
      PagesAreKeys(h, prefix, l, n - 1, ds);
      OnePageMore(h, prefix, l, n - 1, ds, HydratePages(h, prefix, l, n - 1, ds));
    }
  }

  /** The first p pages each said that there is more. */
  predicate AllTruncated(l: Listing, p: nat) {
    Answered(l, p) && forall q :: 0 <= q < p ==> l[q].value.truncated
  }

  lemma NotWhole(l: Listing, p: nat)
    requires AllTruncated(l, p)
    ensures !Whole(l, p)
  {
    assert p > 0 ==> l[p - 1].value.truncated;
  }

  // ------------------------------------------------------------------ what a sweep leaves alone

  /** A sweep removes no object, and changes none but those of the certificates it lists. */
  lemma {:induction false} SweepOnlyAdds(bucket: map<string, Bytes>, prefix: string, es: seq<Entry>, us: nat -> Upload, k: string)
    ensures k in bucket ==> k in Swept(bucket, prefix, es, us)
    ensures (forall i :: 0 <= i < |es| && Uploads(es[i]) ==> k != prefix + es[i].name) ==>
      && (k in Swept(bucket, prefix, es, us) <==> k in bucket)
      && (k in bucket ==> Swept(bucket, prefix, es, us)[k] == bucket[k])
  {
    if es != [] {
      SweepOnlyAdds(bucket, prefix, es[..|es| - 1], us, k);
    }
  }

  /** In particular nothing outside the prefix is touched. */
  lemma OutsidePrefixUntouched(bucket: map<string, Bytes>, prefix: string, es: seq<Entry>, us: nat -> Upload, k: string)
    requires !(prefix <= k)
    ensures k in Swept(bucket, prefix, es, us) <==> k in bucket
    ensures k in bucket ==> Swept(bucket, prefix, es, us)[k] == bucket[k]
  {
  }

  // ------------------------------------------------------------------ best effort

  /** Entry i is a certificate of this name that could not be read, or not be put. */
  predicate NotUploaded(es: seq<Entry>, us: nat -> Upload, i: nat, name: string) {
    && i < |es| && es[i] == Entry(name, false) && IsCertFile(name)
    && (us(i).ReadError? || (us(i).Data? && !us(i).put))
  }

  /** The errors of a sweep are exactly the certificates that could not be read or put; a file that is
      gone by the time it is read is none. */
  lemma {:induction false} SweepErrorsAre(es: seq<Entry>, us: nat -> Upload, name: string)
    ensures name in SweepErrors(es, us) <==> exists i :: 0 <= i < |es| && NotUploaded(es, us, i, name)
  {
    if es != [] {
      var last := |es| - 1;
      SweepErrorsAre(es[..last], us, name);
      LastError(es, us, name);
      if i :| 0 <= i < last && NotUploaded(es[..last], us, i, name) {
        assert NotUploaded(es, us, i, name);
      }
      if i :| 0 <= i < |es| && NotUploaded(es, us, i, name) {
        assert i < last ==> NotUploaded(es[..last], us, i, name);
      }
    }
  }

  lemma LastError(es: seq<Entry>, us: nat -> Upload, name: string)
    requires es != []
    ensures name in SweepErrors(es, us) <==>
      name in SweepErrors(es[..|es| - 1], us) || NotUploaded(es, us, |es| - 1, name)
  {
  }

  /** Key i is that of a certificate of this name. */
  predicate KeyOf(prefix: string, keys: seq<string>, i: nat, name: string) {
    i < |keys| && TrimPrefix(keys[i], prefix) == name && Mirrored(name)
  }

  /** One key of another name: at most temporary files come and go. */
  lemma OtherKeyKeeps(h: Hydration, prefix: string, key: string, d: Download, name: string)
    requires IsCertFile(name) && (TrimPrefix(key, prefix) != name || !d.Fetched?)
    ensures
      var files := HydrateKey(h, prefix, key, d).dir.files;
      (name in files <==> name in h.dir.files) && (name in files ==> files[name] == h.dir.files[name])
  {
    TempNotCert(TrimPrefix(key, prefix));
  }

  lemma FetchedIsThere(h: Hydration, prefix: string, key: string, data: Bytes)
    requires Mirrored(TrimPrefix(key, prefix))
    ensures
      var (name, files) := (TrimPrefix(key, prefix), HydrateKey(h, prefix, key, Fetched(data)).dir.files);
      name in files && files[name] == data
  {
  }

  /** No key of this name among the first n is fetched from m on. */
  predicate NotFetchedFrom(prefix: string, keys: seq<string>, m: nat, n: nat, name: string, at: nat, ds: nat -> Download)
    requires n <= |keys|
  {
    forall i :: m <= i < n ==> !(KeyOf(prefix, keys, i, name) && ds(at + i).Fetched?)
  }

  lemma {:induction false} KeysAt(h: Hydration, prefix: string, keys: seq<string>, n: nat, ds: nat -> Download)
    requires n <= |keys|
    ensures HydrateKeys(h, prefix, keys, n, ds).at == h.at + n
  {
    if n > 0 {
      KeysAt(h, prefix, keys, n - 1, ds);
    }
  }

  predicate SameFile(a: Dir, b: Dir, name: string) {
    (name in b.files <==> name in a.files) && (name in b.files ==> b.files[name] == a.files[name])
  }

  lemma UnfetchedStep(h: Hydration, prefix: string, keys: seq<string>, n: nat, ds: nat -> Download, name: string, was: Dir)
    requires n < |keys| && Mirrored(name) && !(KeyOf(prefix, keys, n, name) && ds(h.at + n).Fetched?)
    requires SameFile(was, HydrateKeys(h, prefix, keys, n, ds).dir, name)
    ensures SameFile(was, HydrateKeys(h, prefix, keys, n + 1, ds).dir, name)
  {
    KeysAt(h, prefix, keys, n, ds);
    OtherKeyKeeps(HydrateKeys(h, prefix, keys, n, ds), prefix, keys[n], ds(h.at + n), name);
  }

  /** A certificate that is not fetched stays what it is, whatever becomes of the other objects. */
  lemma {:induction false} UnfetchedKeeps(h: Hydration, prefix: string, keys: seq<string>, m: nat, n: nat, ds: nat -> Download, name: string)
    requires m <= n <= |keys| && Mirrored(name) && NotFetchedFrom(prefix, keys, m, n, name, h.at, ds)
    ensures SameFile(HydrateKeys(h, prefix, keys, m, ds).dir, HydrateKeys(h, prefix, keys, n, ds).dir, name)
    decreases n
  {
    if m < n {
      UnfetchedKeeps(h, prefix, keys, m, n - 1, ds, name);
      UnfetchedStep(h, prefix, keys, n - 1, ds, name, HydrateKeys(h, prefix, keys, m, ds).dir);
    }
  }

  /** One bad object does not block the rest: a certificate is restored as it was last fetched,
      whatever became of the other objects. */
  lemma LastFetchedStays(h: Hydration, prefix: string, keys: seq<string>, i: nat, ds: nat -> Download, name: string, data: Bytes)
    requires KeyOf(prefix, keys, i, name) && ds(h.at + i) == Fetched(data)
    requires NotFetchedFrom(prefix, keys, i + 1, |keys|, name, h.at, ds)
    ensures
      var files := HydrateKeys(h, prefix, keys, |keys|, ds).dir.files;
      name in files && files[name] == data
  {
    KeysAt(h, prefix, keys, i, ds);
    FetchedIsThere(HydrateKeys(h, prefix, keys, i, ds), prefix, keys[i], data);
    UnfetchedKeeps(h, prefix, keys, i + 1, |keys|, ds, name);
  }

  /** Key i is that of a certificate of this name, which could not be restored. */
  predicate NotRestored(prefix: string, keys: seq<string>, i: nat, name: string, ds: nat -> Download) {
    KeyOf(prefix, keys, i, name) && !ds(i).Fetched?
  }

  lemma NextError(prefix: string, keys: seq<string>, n: nat, dir: Dir, ds: nat -> Download, name: string)
    requires n < |keys|
    ensures
      var h := Hydration(dir, [], 0);
      name in HydrateKeys(h, prefix, keys, n + 1, ds).errs <==>
        name in HydrateKeys(h, prefix, keys, n, ds).errs || NotRestored(prefix, keys, n, name, ds)
  {
    KeysAt(Hydration(dir, [], 0), prefix, keys, n, ds);
  }

  /** One of the first n keys. */
  predicate NotRestoredIn(prefix: string, keys: seq<string>, n: nat, name: string, ds: nat -> Download) {
    n > 0 && (NotRestoredIn(prefix, keys, n - 1, name, ds) || NotRestored(prefix, keys, n - 1, name, ds))
  }

  lemma {:induction false} NotRestoredInIff(prefix: string, keys: seq<string>, n: nat, name: string, ds: nat -> Download)
    ensures NotRestoredIn(prefix, keys, n, name, ds) <==> exists i :: 0 <= i < n && NotRestored(prefix, keys, i, name, ds)
  {
    if n > 0 {
      NotRestoredInIff(prefix, keys, n - 1, name, ds);
    }
  }

  /** The errors of a hydration are exactly the certificates that could not be restored. */
  lemma {:induction false} HydrateErrorsAre(prefix: string, keys: seq<string>, n: nat, dir: Dir, ds: nat -> Download, name: string)
    requires n <= |keys|
    ensures name in HydrateKeys(Hydration(dir, [], 0), prefix, keys, n, ds).errs <==> NotRestoredIn(prefix, keys, n, name, ds)
  {
    if n > 0 {
      HydrateErrorsAre(prefix, keys, n - 1, dir, ds, name);
      NextError(prefix, keys, n - 1, dir, ds, name);
    }
  }

  // ------------------------------------------------------------------ round trip

  predicate NamesDistinct(es: seq<Entry>) {
    forall i, j :: 0 <= i < j < |es| ==> es[i].name != es[j].name
  }

  /** The entries are those of the directory, and each certificate is read as it is. */
  ghost predicate Reads(dir: map<string, Bytes>, es: seq<Entry>, us: nat -> Upload) {
    && NamesDistinct(es)
    && (forall i :: 0 <= i < |es| && !es[i].isDir ==> es[i].name in dir)
    && (forall n :: n in dir ==> exists i :: 0 <= i < |es| && es[i] == Entry(n, false))
    && (forall i :: 0 <= i < |es| && Uploads(es[i]) ==> us(i).Data? ==> us(i).data == dir[es[i].name])
    && (forall i :: 0 <= i < |es| && Uploads(es[i]) ==> !us(i).Missing?)
  }

  lemma {:induction false} NoErrorsMeans(es: seq<Entry>, us: nat -> Upload, i: nat)
    requires SweepErrors(es, us) == [] && i < |es| && Uploads(es[i])
    ensures !UploadFails(us(i))
  {
    var last := |es| - 1;
    if i < last {
      NoErrorsMeans(es[..last], us, i);
    }
  }

  /** What was put under a name is there at the end of the sweep. */
  lemma {:induction false} SweptHas(bucket: map<string, Bytes>, prefix: string, es: seq<Entry>, us: nat -> Upload, i: nat)
    requires NamesDistinct(es) && i < |es| && Uploads(es[i]) && us(i).Data? && us(i).put
    ensures prefix + es[i].name in Swept(bucket, prefix, es, us)
    ensures Swept(bucket, prefix, es, us)[prefix + es[i].name] == us(i).data
  {
    var last := |es| - 1;
    if i < last {
      SweptHas(bucket, prefix, es[..last], us, i);
      SamePrefix(prefix, es[i].name, es[last].name);
    }
  }

  lemma SamePrefix(prefix: string, a: string, b: string)
    ensures prefix + a == prefix + b <==> a == b
  {
    assert (prefix + a)[|prefix|..] == a && (prefix + b)[|prefix|..] == b;
  }

  /** What the bucket holds of this mirror: the flat certificate objects under the prefix. */
  ghost predicate MirrorOf(bucket: map<string, Bytes>, prefix: string, dir: map<string, Bytes>) {
    && (forall n :: n in dir <==> Mirrored(n) && prefix + n in bucket)
    && (forall n :: n in dir ==> dir[n] == bucket[prefix + n])
  }

  /** An error-free sweep: every certificate of the directory is in the bucket, byte for byte. */
  lemma SweepStores(dir: map<string, Bytes>, bucket: map<string, Bytes>, prefix: string, es: seq<Entry>,
                    us: nat -> Upload, name: string)
    requires Reads(dir, es, us) && SweepErrors(es, us) == [] && name in dir && IsCertFile(name)
    ensures prefix + name in Swept(bucket, prefix, es, us)
    ensures Swept(bucket, prefix, es, us)[prefix + name] == dir[name]
  {
    var i :| 0 <= i < |es| && es[i] == Entry(name, false);
    NoErrorsMeans(es, us, i);
    SweptHas(bucket, prefix, es, us, i);
  }

  /** The listing names exactly the objects under the prefix, however it is cut into pages. */
  ghost predicate Lists(bucket: map<string, Bytes>, prefix: string, keys: seq<string>) {
    forall k :: k in keys <==> k in bucket && prefix <= k
  }

  /** Every object is delivered as it is. */
  ghost predicate Delivers(bucket: map<string, Bytes>, keys: seq<string>, ds: nat -> Download) {
    forall i :: 0 <= i < |keys| && keys[i] in bucket ==> ds(i) == Fetched(bucket[keys[i]])
  }

  /** One object that is delivered. */
  lemma OneRestored(h: Hydration, prefix: string, key: string, data: Bytes, n: string)
    requires prefix <= key && (n in h.dir.files ==> Mirrored(n))
    ensures
      var h' := HydrateKey(h, prefix, key, Fetched(data));
      && h'.errs == h.errs && h'.at == h.at + 1
      && (n in h'.dir.files <==> n in h.dir.files || (Mirrored(n) && key == prefix + n))
      && (Mirrored(n) && key == prefix + n ==> h'.dir.files[n] == data)
      && (n in h.dir.files && key != prefix + n ==> h'.dir.files[n] == h.dir.files[n])
  {
    var name := TrimPrefix(key, prefix);
    assert key == prefix + name;
    SamePrefix(prefix, name, n);
    TempNotCert(name);
  }

  predicate ListedBefore(keys: seq<string>, m: nat, k: string)
    requires m <= |keys|
  {
    exists i :: 0 <= i < m && keys[i] == k
  }

  const NOTHING := Hydration(Dir(map[]), [], 0)

  /** What a hydration of the first m keys has made of the name n. */
  ghost predicate Restores(bucket: map<string, Bytes>, keys: seq<string>, m: nat, h: Hydration, n: string, k: string)
    requires m <= |keys|
  {
    && h.errs == [] && h.at == m
    && (n in h.dir.files <==> Mirrored(n) && ListedBefore(keys, m, k))
    && (n in h.dir.files ==> k in bucket && h.dir.files[n] == bucket[k])
  }

  lemma RestoresMore(bucket: map<string, Bytes>, prefix: string, keys: seq<string>, m: nat, h: Hydration, n: string,
                     h': Hydration)
    requires m < |keys| && keys[m] in bucket && prefix <= keys[m] && Restores(bucket, keys, m, h, n, prefix + n)
    requires h' == HydrateKey(h, prefix, keys[m], Fetched(bucket[keys[m]]))
    ensures Restores(bucket, keys, m + 1, h', n, prefix + n)
  {
    OneRestored(h, prefix, keys[m], bucket[keys[m]], n);
    ListedOneMore(keys, m, prefix + n);
  }

  lemma ListedOneMore(keys: seq<string>, m: nat, k: string)
    requires m < |keys|
    ensures ListedBefore(keys, m + 1, k) <==> ListedBefore(keys, m, k) || keys[m] == k
  {
  }

  /** One more key, all that is needed of the listing and the answers being about that key. */
  lemma RestoresNext(bucket: map<string, Bytes>, prefix: string, keys: seq<string>, m: nat, ds: nat -> Download, n: string)
    requires m < |keys| && keys[m] in bucket && prefix <= keys[m] && ds(m) == Fetched(bucket[keys[m]])
    requires Restores(bucket, keys, m, HydrateKeys(NOTHING, prefix, keys, m, ds), n, prefix + n)
    ensures Restores(bucket, keys, m + 1, HydrateKeys(NOTHING, prefix, keys, m + 1, ds), n, prefix + n)
  {
    var before, after := HydrateKeys(NOTHING, prefix, keys, m, ds), HydrateKeys(NOTHING, prefix, keys, m + 1, ds);
    RestoresMore(bucket, prefix, keys, m, before, n, after);
  }

  /** The directory after a hydration from nothing, whichever keys were listed. */
  lemma {:induction false} HydratedIs(bucket: map<string, Bytes>, prefix: string, keys: seq<string>, m: nat,
                                      ds: nat -> Download, n: string)
    requires m <= |keys| && forall i :: 0 <= i < |keys| ==> keys[i] in bucket && prefix <= keys[i]
    requires Delivers(bucket, keys, ds)
    ensures Restores(bucket, keys, m, HydrateKeys(NOTHING, prefix, keys, m, ds), n, prefix + n)
  {
    if m > 0 {
      HydratedIs(bucket, prefix, keys, m - 1, ds, n);
      RestoresNext(bucket, prefix, keys, m - 1, ds, n);
    }
  }

  /** Hydrating an empty directory gives exactly the mirror that the bucket holds, without an error,
      however the listing is cut into pages. */
  lemma HydrateRestores(bucket: map<string, Bytes>, prefix: string, l: Listing, pages: nat, ds: nat -> Download)
    requires Whole(l, pages)
    requires Lists(bucket, prefix, KeysUpTo(l, pages)) && Delivers(bucket, KeysUpTo(l, pages), ds)
    ensures
      var h := HydratePages(NOTHING, prefix, l, pages, ds);
      h.errs == [] && MirrorOf(bucket, prefix, h.dir.files)
  {
    var keys := KeysUpTo(l, pages);
    PagesAreKeys(NOTHING, prefix, l, pages, ds);
    var h := HydrateKeys(NOTHING, prefix, keys, |keys|, ds);
    HydratedIs(bucket, prefix, keys, |keys|, ds, "");
    forall n
      ensures n in h.dir.files <==> Mirrored(n) && prefix + n in bucket
      ensures n in h.dir.files ==> h.dir.files[n] == bucket[prefix + n]
    {
      HydratedIs(bucket, prefix, keys, |keys|, ds, n);
      assert prefix <= prefix + n;
    }
  }

  /** Round trip: after an error-free sweep, a hydration of an empty directory through any pages
      restores every certificate file byte for byte; and if the bucket held nothing under the
      prefix before, it restores nothing else. */
  lemma RoundTrip(dir: map<string, Bytes>, bucket: map<string, Bytes>, prefix: string, es: seq<Entry>,
                  us: nat -> Upload, l: Listing, pages: nat, ds: nat -> Download)
    requires forall n :: n in dir ==> n != "" && '/' !in n
    requires Reads(dir, es, us) && SweepErrors(es, us) == [] && Whole(l, pages)
    requires
      var after := Swept(bucket, prefix, es, us);
      Lists(after, prefix, KeysUpTo(l, pages)) && Delivers(after, KeysUpTo(l, pages), ds)
    ensures
      var h := HydratePages(NOTHING, prefix, l, pages, ds);
      var restored := h.dir.files;
      && h.errs == []
      && (forall n :: n in dir && IsCertFile(n) ==> n in restored && restored[n] == dir[n])
      && ((forall k :: k in bucket ==> !(prefix <= k)) ==>
            forall n :: n in restored ==> n in dir && IsCertFile(n))
  {
    var after := Swept(bucket, prefix, es, us);
    var restored := HydratePages(NOTHING, prefix, l, pages, ds).dir.files;
    HydrateRestores(after, prefix, l, pages, ds);
    forall n | n in dir && IsCertFile(n)
      ensures n in restored && restored[n] == dir[n]
    {
      SweepStores(dir, bucket, prefix, es, us, n);
      assert Mirrored(n);
    }
    if forall k :: k in bucket ==> !(prefix <= k) {
      forall n | n in restored
        ensures n in dir && IsCertFile(n)
      {
        assert prefix <= prefix + n;
        NothingElse(dir, bucket, prefix, es, us, n);
      }
    }
  }

  lemma NothingElse(dir: map<string, Bytes>, bucket: map<string, Bytes>, prefix: string, es: seq<Entry>,
                    us: nat -> Upload, n: string)
    requires Reads(dir, es, us) && prefix + n !in bucket && prefix + n in Swept(bucket, prefix, es, us)
    ensures n in dir && IsCertFile(n)
  {
    SweepOnlyAdds(bucket, prefix, es, us, prefix + n);
    var i :| 0 <= i < |es| && Uploads(es[i]) && prefix + n == prefix + es[i].name;
    SamePrefix(prefix, n, es[i].name);
  }
}
