/** `server.js` of the invitation app: the greeting name taken from `?to=`, the
    guestbook listing, the validation of a new guestbook message and the redirect
    after it is stored. The database and `encodeURIComponent` are parameters. */
module InvitationServer {
  import opened Wrappers
  import Text
  import Lists

  /** A row of the `ucapan` table. */
  datatype Entry = Entry(nama: string, pesan: string, konfirmasi: string, createdAt: int)

  datatype Response =
    | Redirect(location: string)
    | Status(code: int, text: string)
    | Page(namaTamu: string, daftarUcapan: seq<Entry>)

  const DefaultGuest := "Tamu Undangan"
  const ReadFailed := "Terjadi kesalahan pada server saat mengambil data."
  const WriteFailed := "Terjadi kesalahan pada server saat menyimpan data."
  const MissingField := "Semua kolom harus diisi!"

  /** A query or body field is truthy: present and not empty. */
  predicate Filled(v: Option<string>) {
    v.Some? && v.value != ""
  }

  /** `GET /`. */
  function Root(): (r: Response)
    ensures r == Redirect("/undangan")
  {
    Redirect("/undangan")
  }

  /** `(req.query.to || "Tamu Undangan").replace(/\+/g, ' ')`. */
  function GuestName(to: Option<string>): (name: string)
    ensures !Filled(to) ==> name == DefaultGuest
    ensures Filled(to) ==> |name| == |to.value|
    ensures forall i :: 0 <= i < |name| ==> name[i] != '+'
    ensures Filled(to) ==> forall i :: 0 <= i < |name| ==> name[i] == if to.value[i] == '+' then ' ' else to.value[i]
  {
    Text.ReplaceChar(if Filled(to) then to.value else DefaultGuest, '+', ' ')
  }

  /** `ORDER BY created_at DESC`: `a` may precede `b`. */
  function NewestFirst(): (Entry, Entry) -> bool {
    (a: Entry, b: Entry) => a.createdAt >= b.createdAt
  }

  lemma NewestFirstIsTotalPreorder()
    ensures Lists.IsTotalPreorder(NewestFirst())
  {
  }

  /** `GET /undangan`: the page with the guest's name and every message, newest
      first; `readFails` is a failed query. */
  function Undangan(table: seq<Entry>, to: Option<string>, readFails: bool): (r: Response)
    ensures readFails ==> r == Status(500, ReadFailed)
    ensures !readFails ==> r.Page? && r.namaTamu == GuestName(to)
    ensures !readFails ==> multiset(r.daftarUcapan) == multiset(table)
    ensures !readFails ==> Lists.Sorted(r.daftarUcapan, NewestFirst())
  {
    if readFails then Status(500, ReadFailed)
    else
      NewestFirstIsTotalPreorder();
      Lists.SortBySorted(table, NewestFirst());
      Page(GuestName(to), Lists.SortBy(table, NewestFirst()))
  }

  /** The redirect after a stored message as `server.js` builds it: the `?to=` part
      only when `to` is given, then `&status=sukses` in every case. */
  function RedirectAsWritten(to: Option<string>, encode: string -> string): (url: string)
    ensures Filled(to) ==> url == "/undangan?to=" + encode(to.value) + "&status=sukses"
    ensures !Filled(to) ==> url == "/undangan&status=sukses"
  {
    "/undangan" + (if Filled(to) then "?to=" + encode(to.value) else "") + "&status=sukses"
  }

  /** The redirect with the status always in the query string. */
  function RedirectTarget(to: Option<string>, encode: string -> string): (url: string)
    ensures Filled(to) ==> url == RedirectAsWritten(to, encode)
    ensures !Filled(to) ==> url == "/undangan?status=sukses"
  {
    "/undangan" + (if Filled(to) then "?to=" + encode(to.value) + "&status=sukses" else "?status=sukses")
  }

  /** The path of a URL: everything before the first `?`. */
  function PathOf(url: string): (p: string)
    ensures |p| <= |url| && p == url[..|p|]
    ensures '?' !in p
    ensures |p| < |url| ==> url[|p|] == '?'
  {
    if url == [] || url[0] == '?' then []
    else
      var rest := PathOf(url[1..]);
      assert url[..1 + |rest|] == [url[0]] + url[1..][..|rest|];
      [url[0]] + rest
  }

  lemma {:induction false} PathOfPrefix(path: string, rest: string)
    requires '?' !in path
    ensures PathOf(path + "?" + rest) == path
    decreases |path|
  {
    if path != [] {
      assert (path + "?" + rest)[1..] == path[1..] + "?" + rest;
      PathOfPrefix(path[1..], rest);
    } else {
      assert path + "?" + rest == "?" + rest;
    }
  }

  /** Without `to`, the redirect as written has no query string: its path is
      `/undangan&status=sukses`, not the invitation page. */
  lemma RedirectWithoutGuestMissesPage(encode: string -> string)
    ensures PathOf(RedirectAsWritten(None, encode)) == "/undangan&status=sukses"
    ensures PathOf(RedirectAsWritten(None, encode)) != "/undangan"
  {
    var url := RedirectAsWritten(None, encode);
    assert '?' !in url;
    assert PathOf(url) == url;
  }

  /** The redirect always leads back to `/undangan`. */
  lemma RedirectReachesPage(to: Option<string>, encode: string -> string)
    ensures PathOf(RedirectTarget(to, encode)) == "/undangan"
  {
    var rest := if Filled(to) then "to=" + encode(to.value) + "&status=sukses" else "status=sukses";
    assert RedirectTarget(to, encode) == "/undangan" + "?" + rest;
    PathOfPrefix("/undangan", rest);
  }

  /** The redirect always ends with the success status. */
  lemma RedirectReportsSuccess(to: Option<string>, encode: string -> string)
    ensures var url := RedirectTarget(to, encode);
            |url| >= |"status=sukses"| && url[|url| - |"status=sukses"|..] == "status=sukses"
  {
    var head := "/undangan" + (if Filled(to) then "?to=" + encode(to.value) + "&" else "?");
    var url := RedirectTarget(to, encode);
    assert url == head + "status=sukses";
    assert |url| - |"status=sukses"| == |head|;
  }

  /** The submitted form fields. */
  datatype Form = Form(nama: Option<string>, pesan: Option<string>, konfirmasi: Option<string>)

  /** `!nama || !pesan || !konfirmasi` is false. */
  predicate Complete(form: Form) {
    Filled(form.nama) && Filled(form.pesan) && Filled(form.konfirmasi)
  }

  /** A placeholder in the `VALUES (…)` list of the insert: `?`, or PostgreSQL's `$n`. */
  datatype Placeholder = Question | Numbered(n: nat)

  /** `INSERT INTO ucapan (nama, pesan, konfirmasi) VALUES ($1, $2, $3)`, as written. */
  const ValuesAsWritten: seq<Placeholder> := [Numbered(1), Numbered(2), Numbered(3)]
  /** The same insert with `VALUES (?, ?, ?)`. */
  const Values: seq<Placeholder> := [Question, Question, Question]

  /** `pool.query(sql, [nama, pesan, konfirmasi])` of `mysql2` puts the three values in
      place of `?` marks and nothing else. A `$n` left in the statement reaches MySQL as
      the name of a column `ucapan` does not have, and the insert fails; three `?` marks
      take the three values. */
  predicate InsertRuns(values: seq<Placeholder>) {
    |values| == 3 && forall i | 0 <= i < |values| :: values[i] == Question
  }

  /** The placeholders as written are never filled; the `?` marks are. */
  lemma PlaceholdersAsWrittenRejected()
    ensures !InsertRuns(ValuesAsWritten)
    ensures InsertRuns(Values)
  {
    assert ValuesAsWritten[0] == Numbered(1);
  }

  /** `POST /ucapan` with redirect `target`, where `runs` says whether the insert
      statement is one the database accepts: `(response, table afterwards)`. A missing
      or empty field is refused before the database is touched; `writeFails` is any
      other failed insert and `now` the `created_at` the database assigns. */
  function Submit(table: seq<Entry>, form: Form, runs: bool, target: string, writeFails: bool, now: int)
    : (out: (Response, seq<Entry>))
    ensures !Complete(form) ==> out == (Status(400, MissingField), table)
    ensures Complete(form) && (writeFails || !runs) ==> out == (Status(500, WriteFailed), table)
    ensures Complete(form) && !writeFails && runs ==>
              && out.0 == Redirect(target)
              && out.1 == table + [Entry(form.nama.value, form.pesan.value, form.konfirmasi.value, now)]
  {
    if !Complete(form) then (Status(400, MissingField), table)
    else if writeFails || !runs then (Status(500, WriteFailed), table)
    else
      (Redirect(target), table + [Entry(form.nama.value, form.pesan.value, form.konfirmasi.value, now)])
  }

  /** `POST /ucapan` as written: a complete form is always answered with 500 and
      nothing is stored. */
  function Ucapan(table: seq<Entry>, form: Form, to: Option<string>, writeFails: bool, now: int,
                  encode: string -> string): (out: (Response, seq<Entry>))
    ensures !Complete(form) ==> out == (Status(400, MissingField), table)
    ensures Complete(form) ==> out == (Status(500, WriteFailed), table)
  {
    PlaceholdersAsWrittenRejected();
    Submit(table, form, InsertRuns(ValuesAsWritten), RedirectAsWritten(to, encode), writeFails, now)
  }

  /** `POST /ucapan` with `?` placeholders and the status always in the query string. */
  function UcapanCorrected(table: seq<Entry>, form: Form, to: Option<string>, writeFails: bool, now: int,
                           encode: string -> string): (out: (Response, seq<Entry>))
    ensures !Complete(form) ==> out == (Status(400, MissingField), table)
    ensures Complete(form) && writeFails ==> out == (Status(500, WriteFailed), table)
    ensures Complete(form) && !writeFails ==>
              && out.0 == Redirect(RedirectTarget(to, encode))
              && out.1 == table + [Entry(form.nama.value, form.pesan.value, form.konfirmasi.value, now)]
  {
    Submit(table, form, InsertRuns(Values), RedirectTarget(to, encode), writeFails, now)
  }

  /** A stored message shows up on the page the redirect leads to. */
  lemma PostedMessageListed(table: seq<Entry>, form: Form, to: Option<string>, now: int,
                            encode: string -> string)
    requires Complete(form)
    ensures var after := UcapanCorrected(table, form, to, false, now, encode).1;
            Entry(form.nama.value, form.pesan.value, form.konfirmasi.value, now)
              in Undangan(after, to, false).daftarUcapan
  {
    var after := UcapanCorrected(table, form, to, false, now, encode).1;
    var e := Entry(form.nama.value, form.pesan.value, form.konfirmasi.value, now);
    assert e in multiset(after);
    assert e in multiset(Undangan(after, to, false).daftarUcapan);
  }
}
