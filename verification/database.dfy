/**
 * The hotel database as an in-memory value: the tables the repository methods
 * of repositories.py read and write, the schema constraints of database.py that
 * decide when a write fails, and the date-range conflict rule of
 * `RoomRepository.get_conflict_ids`.
 *
 * Tables keyed by an IDENTITY column (KhachHang, PhieuDatPhong, HoaDon,
 * ChiTietSD) are sequences whose position is the row id; Phong and DichVu are
 * keyed by their own primary key. Dates are day numbers, timestamps are seconds.
 */
module Database {
  import opened Common
  import opened Records

  /** One Phong row: status, room type (MaLP) and free-text note (GhiChu). */
  datatype RoomRow = RoomRow(status: RoomStatus, typeId: int, note: string)

  /** One KhachHang row. */
  datatype Guest = Guest(name: string, cccd: string, phone: string)

  /** Booking status strings: 'Đã cọc', 'Đã xác nhận', 'Đang ở', 'Hoàn tất'. */
  datatype BookingStatus = Deposited | Confirmed | Staying | Completed

  /** One PhieuDatPhong row: guest (MaKH), room (SoPhong), NgayDen, NgayDi, TrangThaiDat. */
  datatype Reservation = Reservation(guestId: nat, roomId: int, arrival: int, departure: int, status: BookingStatus)

  /** Invoice status strings: 'Chưa thanh toán', 'Đã thanh toán'. */
  datatype InvoiceStatus = Unpaid | Paid

  /** One HoaDon row: reservation (MaPD), NgayTao, TongTien, PhuThu, TrangThaiHD. */
  datatype Invoice = Invoice(reservationId: nat, createdAt: int, total: int, surcharge: int, status: InvoiceStatus)

  /** One ChiTietSD row: reservation (MaPD), service (MaDV), SoLuong, ThoiGian. */
  datatype UsageLine = UsageLine(reservationId: nat, serviceId: int, qty: int, time: int)

  datatype Store = Store(
    rooms: map<int, RoomRow>,
    services: map<int, Service>,
    guests: seq<Guest>,
    reservations: seq<Reservation>,
    invoices: seq<Invoice>,
    usages: seq<UsageLine>)

  /** Column widths of the schema: GhiChu NVARCHAR(500), TenKH NVARCHAR(100), CCCD NVARCHAR(20), SDT NVARCHAR(15). */
  const NoteWidth := 500
  const NameWidth := 100
  const CccdWidth := 20
  const PhoneWidth := 15

  /** DECIMAL(18,0) holds integers of at most 18 digits. */
  const Decimal18Bound := 1_000_000_000_000_000_000

  predicate FitsDecimal18(x: int) {
    -Decimal18Bound < x < Decimal18Bound
  }

  /** SQL Server INT (SoLuong). */
  predicate FitsInt32(x: int) {
    -0x8000_0000 <= x < 0x8000_0000
  }

  /**
   * What SQL Server compares when it compares two strings with `=` or checks a
   * UNIQUE constraint: the shorter one is padded with spaces, so trailing spaces
   * do not count. The key is the string without its trailing spaces.
   */
  function SqlKey(s: string): (k: string)
    ensures |k| <= |s| && k == s[..|k|]
    ensures forall i :: |k| <= i < |s| ==> s[i] == ' '
    ensures |k| == 0 || k[|k| - 1] != ' '
  {
    if |s| == 0 || s[|s| - 1] != ' ' then s else SqlKey(s[..|s| - 1])
  }

  /** `a = b` between two NVARCHAR values. */
  predicate SameText(a: string, b: string) {
    SqlKey(a) == SqlKey(b)
  }

  /** Padding a string with spaces does not change its key. */
  lemma {:induction false} SqlKeyOfPadded(s: string, pad: string)
    requires forall i :: 0 <= i < |pad| ==> pad[i] == ' '
    ensures SqlKey(s + pad) == SqlKey(s)
    decreases |pad|
  {
    if |pad| > 0 {
      var shorter := pad[..|pad| - 1];
      assert (s + pad)[|s + pad| - 1] == pad[|pad| - 1] == ' ';
      assert (s + pad)[..|s + pad| - 1] == s + shorter;
      SqlKeyOfPadded(s, shorter);
    } else {
      assert s + pad == s;
    }
  }

  /** Two strings compare equal exactly when they differ only by trailing spaces. */
  lemma SameTextIffPadded(a: string, b: string)
    ensures SameText(a, b) <==>
              exists pa: string, pb: string, core: string ::
                a == core + pa && b == core + pb
                && (forall i :: 0 <= i < |pa| ==> pa[i] == ' ') && (forall i :: 0 <= i < |pb| ==> pb[i] == ' ')
  {
    if SameText(a, b) {
      var core := SqlKey(a);
      var pa, pb := a[|core|..], b[|core|..];
      assert a == core + pa && b == core + pb;
    } else {
      forall pa: string, pb: string, core: string |
        a == core + pa && b == core + pb
        && (forall i :: 0 <= i < |pa| ==> pa[i] == ' ') && (forall i :: 0 <= i < |pb| ==> pb[i] == ' ')
        ensures false
      {
        SqlKeyOfPadded(core, pa);
        SqlKeyOfPadded(core, pb);
      }
    }
  }

  /** UTF-16 code units of one character: two for a character outside the Basic Multilingual Plane. */
  function CodeUnits(c: char): nat {
    if c as int < 0x1_0000 then 1 else 2
  }

  /** The length an NVARCHAR column measures: UTF-16 code units, not characters. */
  function Utf16Length(s: string): (n: nat)
    ensures |s| <= n <= 2 * |s|
  {
    if |s| == 0 then 0 else Utf16Length(s[..|s| - 1]) + CodeUnits(s[|s| - 1])
  }

  lemma {:induction false} Utf16LengthAppend(a: string, b: string)
    ensures Utf16Length(a + b) == Utf16Length(a) + Utf16Length(b)
    decreases |b|
  {
    if |b| == 0 {
      assert a + b == a;
    } else {
      assert (a + b)[..|a + b| - 1] == a + b[..|b| - 1];
      Utf16LengthAppend(a, b[..|b| - 1]);
    }
  }

  /** A string inside the Basic Multilingual Plane (spaces, say) takes one code unit per character. */
  lemma {:induction false} Utf16LengthOfBmp(s: string)
    requires forall i :: 0 <= i < |s| ==> s[i] as int < 0x1_0000
    ensures Utf16Length(s) == |s|
    decreases |s|
  {
    if |s| > 0 {
      Utf16LengthOfBmp(s[..|s| - 1]);
    }
  }

  /** A string of characters outside the Basic Multilingual Plane takes two code units per character. */
  lemma {:induction false} Utf16LengthOfAstral(s: string)
    requires forall i :: 0 <= i < |s| ==> s[i] as int >= 0x1_0000
    ensures Utf16Length(s) == 2 * |s|
    decreases |s|
  {
    if |s| > 0 {
      Utf16LengthOfAstral(s[..|s| - 1]);
    }
  }

  /** A prefix of `s` that keeps its key: the key followed by some of the trailing spaces. */
  lemma PaddedPrefix(s: string, m: nat)
    requires |SqlKey(s)| <= m <= |s|
    ensures SqlKey(s[..m]) == SqlKey(s)
    ensures Utf16Length(s[..m]) == Utf16Length(SqlKey(s)) + (m - |SqlKey(s)|)
  {
    var key := SqlKey(s);
    var pad := s[|key|..m];
    assert s[..m] == key + pad;
    SqlKeyOfPadded(key, pad);
    assert SqlKey(key) == key by {
      assert key + [] == key;
      SqlKeyOfPadded(key, []);
    }
    Utf16LengthAppend(key, pad);
    Utf16LengthOfBmp(pad);
  }

  /**
   * The value an NVARCHAR(width) column stores for `s`, or None when SQL Server
   * refuses it. A value that fits is stored as is. A wider value whose excess
   * is only trailing spaces is cut to the width without an error; any other
   * wider value raises the truncation error.
   */
  function StoreText(s: string, width: nat): (r: Option<string>)
    ensures r.Some? <==> Utf16Length(SqlKey(s)) <= width
    ensures Utf16Length(s) <= width ==> r == Some(s)
    ensures r.Some? ==> Utf16Length(r.value) <= width && |r.value| <= |s| && r.value == s[..|r.value|] && SameText(r.value, s)
    ensures r.Some? && width < Utf16Length(s) ==> Utf16Length(r.value) == width
  {
    var key := SqlKey(s);
    PaddedPrefix(s, |key|);
    PaddedPrefix(s, |s|);
    assert s[..|s|] == s;
    assert s[..|key|] == key;
    if Utf16Length(s) <= width then Some(s)
    else if Utf16Length(key) <= width then
      var m := |key| + (width - Utf16Length(key));
      PaddedPrefix(s, m);
      Some(s[..m])
    else None
  }

  /** The value an NVARCHAR(width) column that accepts `s` ends up holding. */
  function Stored(s: string, width: nat): string
    requires Utf16Length(SqlKey(s)) <= width
  {
    StoreText(s, width).value
  }

  /** A string of at most half the width fits, whatever its characters, and is stored as is. */
  lemma ShortTextStored(s: string, width: nat)
    requires 2 * |s| <= width
    ensures Utf16Length(SqlKey(s)) <= width && Stored(s, width) == s
  {
  }

  /** Foreign keys of PhieuDatPhong: MaKH and SoPhong name existing rows. */
  predicate BookingKeys(st: Store) {
    forall k :: 0 <= k < |st.reservations| ==>
      st.reservations[k].guestId < |st.guests| && st.reservations[k].roomId in st.rooms
  }

  /** Foreign key of HoaDon: MaPD names an existing booking. */
  predicate InvoiceKeys(st: Store) {
    forall k :: 0 <= k < |st.invoices| ==> st.invoices[k].reservationId < |st.reservations|
  }

  /** Foreign keys of ChiTietSD: MaPD and MaDV name existing rows. */
  predicate UsageKeys(st: Store) {
    forall k :: 0 <= k < |st.usages| ==>
      st.usages[k].reservationId < |st.reservations| && st.usages[k].serviceId in st.services
  }

  /** The UNIQUE constraint on CCCD, under SQL Server's comparison. */
  predicate UniqueCccd(guests: seq<Guest>) {
    forall i, j :: 0 <= i < j < |guests| ==> !SameText(guests[i].cccd, guests[j].cccd)
  }

  /** The schema's constraints: foreign keys and the UNIQUE constraint on CCCD. */
  predicate Valid(st: Store) {
    BookingKeys(st) && InvoiceKeys(st) && UsageKeys(st) && UniqueCccd(st.guests)
  }

  /** The statuses `get_conflict_ids` treats as holding the room. */
  predicate Active(s: BookingStatus) {
    s == Deposited || s == Confirmed || s == Staying
  }

  /** The WHERE clause of `get_conflict_ids`: an active booking with `NgayDen < e` and `NgayDi > s`. */
  predicate Conflicts(r: Reservation, s: int, e: int) {
    Active(r.status) && r.arrival < e && r.departure > s
  }

  /** The list `get_conflict_ids(s, e)` returns: the room of every conflicting booking, in id order. */
  function ConflictIds(reservations: seq<Reservation>, s: int, e: int): (r: seq<int>)
    ensures |r| <= |reservations|
  {
    if |reservations| == 0 then []
    else
      var rest := ConflictIds(reservations[..|reservations| - 1], s, e);
      var last := reservations[|reservations| - 1];
      if Conflicts(last, s, e) then rest + [last.roomId] else rest
  }

  /** A room is reported busy exactly when one of its bookings conflicts with the range. */
  lemma {:induction false} ConflictIdsMembership(reservations: seq<Reservation>, s: int, e: int, id: int)
    ensures id in ConflictIds(reservations, s, e)
            <==> exists k :: 0 <= k < |reservations| && reservations[k].roomId == id && Conflicts(reservations[k], s, e)
    decreases |reservations|
  {
    if |reservations| > 0 {
      var init := reservations[..|reservations| - 1];
      ConflictIdsMembership(init, s, e, id);
      if exists k :: 0 <= k < |init| && init[k].roomId == id && Conflicts(init[k], s, e) {
        var k :| 0 <= k < |init| && init[k].roomId == id && Conflicts(init[k], s, e);
        assert reservations[k] == init[k];
      }
      if exists k :: 0 <= k < |reservations| && reservations[k].roomId == id && Conflicts(reservations[k], s, e) {
        var k :| 0 <= k < |reservations| && reservations[k].roomId == id && Conflicts(reservations[k], s, e);
        if k < |init| {
          assert init[k] == reservations[k];
        }
      }
    }
  }

  /** Night `d` (the night starting on day `d`) lies in the half-open range [s, e). */
  predicate Night(s: int, e: int, d: int) {
    s <= d < e
  }

  /**
   * The half-open reading of the conflict rule: for non-empty ranges, a booking
   * conflicts exactly when it is active and shares a night with the range, so a
   * stay ending on the day another begins does not block it.
   */
  lemma ConflictsIffSharedNight(r: Reservation, s: int, e: int)
    requires r.arrival < r.departure && s < e
    ensures Conflicts(r, s, e) <==> Active(r.status) && exists d :: Night(r.arrival, r.departure, d) && Night(s, e, d)
    ensures r.departure == s ==> !Conflicts(r, s, e)
    ensures r.arrival == e ==> !Conflicts(r, s, e)
  {
    if Conflicts(r, s, e) {
      var d := if r.arrival < s then s else r.arrival;
      assert Night(r.arrival, r.departure, d) && Night(s, e, d);
    }
  }

  /** The room each booking holds is held by at most one active booking on any night. */
  predicate NoDoubleBooking(reservations: seq<Reservation>) {
    forall i, j :: 0 <= i < j < |reservations| && reservations[i].roomId == reservations[j].roomId ==>
      !(Conflicts(reservations[i], reservations[j].arrival, reservations[j].departure) && Active(reservations[j].status))
  }
}
