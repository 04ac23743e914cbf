/**
 * The write methods of repositories.py as transitions of the in-memory store.
 * Each returns whether the call reported success together with the store
 * afterwards; every failure path (a guard, a rejected write followed by
 * rollback) returns the store it was given.
 */
module Repositories {
  import opened Common
  import opened Records
  import opened Database
  import Availability

  /** The `(ok, message)` pair of a repository method, with the message replaced by the resulting store. */
  datatype Outcome = Outcome(ok: bool, store: Store)

  /** Only room `id` may differ; the set of rooms and every other table are as before. */
  predicate OnlyRoomChanged(st: Store, st': Store, id: int) {
    && st' == st.(rooms := st'.rooms)
    && st'.rooms.Keys == st.rooms.Keys
    && forall other :: other in st.rooms && other != id ==> st'.rooms[other] == st.rooms[other]
  }

  // ---------------------------------------------------------------------------
  // RoomRepository.update_status / update_note
  // ---------------------------------------------------------------------------

  /**
   * `update_status`: refused for an unknown room and for a manual
   * 'Đang ở' -> 'Trống' change (the guest must check out first); otherwise
   * only that room's status changes.
   */
  function UpdateStatus(st: Store, roomId: int, status: RoomStatus): (r: Outcome)
    ensures r.ok <==> roomId in st.rooms && !(st.rooms[roomId].status == Occupied && status == Free)
    ensures !r.ok ==> r.store == st
    ensures r.ok ==>
              OnlyRoomChanged(st, r.store, roomId) && r.store.rooms[roomId] == st.rooms[roomId].(status := status)
  {
    if roomId !in st.rooms then Outcome(false, st)
    else if st.rooms[roomId].status == Occupied && status == Free then Outcome(false, st)
    else Outcome(true, st.(rooms := st.rooms[roomId := st.rooms[roomId].(status := status)]))
  }

  /**
   * The guard blocks only the direct change: a room with a guest in it can be
   * made free by hand in two steps, through 'Đang dọn'.
   */
  lemma OccupiedFreedThroughCleaning(st: Store, roomId: int)
    requires roomId in st.rooms && st.rooms[roomId].status == Occupied
    ensures !UpdateStatus(st, roomId, Free).ok
    ensures var first := UpdateStatus(st, roomId, Cleaning);
            var second := UpdateStatus(first.store, roomId, Free);
            first.ok && second.ok && second.store.rooms[roomId].status == Free
  {
  }

  /**
   * `update_note`: an UPDATE of the note column. It touches no row for an
   * unknown room (and still reports success). For an existing room the
   * NVARCHAR(500) column decides: the note is stored as given, cut back to
   * the width when only trailing spaces overflow, and otherwise the
   * truncation error makes the call fail.
   */
  function UpdateNote(st: Store, roomId: int, note: string): (r: Outcome)
    ensures r.ok <==> !(roomId in st.rooms && Utf16Length(SqlKey(note)) > NoteWidth)
    ensures !r.ok || roomId !in st.rooms ==> r.store == st
    ensures r.ok && roomId in st.rooms ==>
              && OnlyRoomChanged(st, r.store, roomId)
              && var stored := r.store.rooms[roomId].note;
              && r.store.rooms[roomId] == st.rooms[roomId].(note := stored)
              && Utf16Length(stored) <= NoteWidth
              && |stored| <= |note| && stored == note[..|stored|] && SameText(stored, note)
              && (Utf16Length(note) <= NoteWidth ==> stored == note)
  {
    if roomId !in st.rooms then Outcome(true, st)
    else
      match StoreText(note, NoteWidth)
      case None => Outcome(false, st)
      case Some(stored) => Outcome(true, st.(rooms := st.rooms[roomId := st.rooms[roomId].(note := stored)]))
  }

  /** A note of more than 250 characters outside the Basic Multilingual Plane overflows the 500 code units. */
  lemma AstralNoteRefused(st: Store, roomId: int, note: string)
    requires roomId in st.rooms
    requires |note| > NoteWidth / 2
    requires forall i :: 0 <= i < |note| ==> note[i] as int >= 0x1_0000
    ensures !UpdateNote(st, roomId, note).ok
  {
    assert SqlKey(note) == note;
    Utf16LengthOfAstral(note);
  }

  /** A note that fills the column, followed by a space, is stored without the space. */
  lemma PaddedNoteTruncated(st: Store, roomId: int, note: string)
    requires roomId in st.rooms
    requires |note| == NoteWidth && note[|note| - 1] != ' '
    requires forall i :: 0 <= i < |note| ==> note[i] as int < 0x1_0000
    ensures var r := UpdateNote(st, roomId, note + " ");
            r.ok && r.store.rooms[roomId].note == note
  {
    SqlKeyOfPadded(note, " ");
    assert SqlKey(note) == note;
    Utf16LengthOfBmp(note);
    var stored := UpdateNote(st, roomId, note + " ").store.rooms[roomId].note;
    assert stored == (note + " ")[..|stored|];
    assert |stored| == |note| by {
      Utf16LengthOfBmp(stored);
    }
  }

  // ---------------------------------------------------------------------------
  // ServiceRepository.add_usage
  // ---------------------------------------------------------------------------

  /** The booking `SELECT MaPD ... WHERE SoPhong = ? AND TrangThaiDat = N'Đang ở'` returns. */
  function StayingBooking(st: Store, roomId: int): (r: Option<nat>)
    ensures r.Some? ==> r.value < |st.reservations| && st.reservations[r.value].roomId == roomId
                        && st.reservations[r.value].status == Staying
    ensures r.None? <==> forall k :: 0 <= k < |st.reservations| ==>
                           !(st.reservations[k].roomId == roomId && st.reservations[k].status == Staying)
  {
    FirstIndex(st.reservations, (b: Reservation) => b.roomId == roomId && b.status == Staying)
  }

  /** The usage line of a (reservation, service) pair, if there is one. */
  function LineOf(usages: seq<UsageLine>, booking: nat, serviceId: int): (r: Option<nat>)
    ensures r.Some? ==> r.value < |usages| && usages[r.value].reservationId == booking
                        && usages[r.value].serviceId == serviceId
    ensures r.None? <==> forall k :: 0 <= k < |usages| ==>
                           !(usages[k].reservationId == booking && usages[k].serviceId == serviceId)
  {
    FirstIndex(usages, (u: UsageLine) => u.reservationId == booking && u.serviceId == serviceId)
  }

  /**
   * `add_usage`: refused when the room has no staying guest. An existing line
   * for the (reservation, service) pair gets `qty` added; otherwise one line is
   * inserted, which the foreign key on MaDV rejects for an unknown service.
   * A quantity outside the INT column also makes the write fail.
   */
  function AddUsage(st: Store, roomId: int, serviceId: int, qty: int, now: int): (r: Outcome)
    ensures StayingBooking(st, roomId).None? ==> !r.ok
    ensures var booking := StayingBooking(st, roomId);
            r.ok <==>
              && booking.Some?
              && (LineOf(st.usages, booking.value, serviceId).Some? ==>
                    FitsInt32(st.usages[LineOf(st.usages, booking.value, serviceId).value].qty + qty))
              && (LineOf(st.usages, booking.value, serviceId).None? ==> serviceId in st.services && FitsInt32(qty))
    ensures !r.ok ==> r.store == st
    ensures r.ok ==> r.store == st.(usages := r.store.usages)
  {
    match StayingBooking(st, roomId)
    case None => Outcome(false, st)
    case Some(booking) =>
      match LineOf(st.usages, booking, serviceId)
      case Some(j) =>
        var total := st.usages[j].qty + qty;
        if !FitsInt32(total) then Outcome(false, st)
        else Outcome(true, st.(usages := st.usages[j := st.usages[j].(qty := total)]))
      case None =>
        if serviceId !in st.services || !FitsInt32(qty) then Outcome(false, st)
        else Outcome(true, st.(usages := st.usages + [UsageLine(booking, serviceId, qty, now)]))
  }

  /** At most one usage line per (reservation, service) pair. */
  predicate UniqueLines(usages: seq<UsageLine>) {
    forall i, j :: 0 <= i < j < |usages| ==>
      !(usages[i].reservationId == usages[j].reservationId && usages[i].serviceId == usages[j].serviceId)
  }

  /** Total quantity of a service recorded against a reservation. */
  function QtyOf(usages: seq<UsageLine>, booking: nat, serviceId: int): int {
    if |usages| == 0 then 0
    else
      var last := usages[|usages| - 1];
      QtyOf(usages[..|usages| - 1], booking, serviceId)
        + (if last.reservationId == booking && last.serviceId == serviceId then last.qty else 0)
  }

  lemma {:induction false} QtyOfSnoc(usages: seq<UsageLine>, line: UsageLine, booking: nat, serviceId: int)
    ensures QtyOf(usages + [line], booking, serviceId)
            == QtyOf(usages, booking, serviceId)
               + (if line.reservationId == booking && line.serviceId == serviceId then line.qty else 0)
  {
    assert (usages + [line])[..|usages|] == usages;
  }

  /** Changing the quantity of line `j` changes only its own pair's total, by the difference. */
  lemma {:induction false} QtyOfUpdate(usages: seq<UsageLine>, j: nat, newQty: int, booking: nat, serviceId: int)
    requires j < |usages|
    ensures var line := usages[j];
            QtyOf(usages[j := line.(qty := newQty)], booking, serviceId)
            == QtyOf(usages, booking, serviceId)
               + (if line.reservationId == booking && line.serviceId == serviceId then newQty - line.qty else 0)
    decreases |usages|
  {
    var n := |usages|;
    var updated := usages[j := usages[j].(qty := newQty)];
    assert updated[..n - 1] == if j < n - 1 then usages[..n - 1][j := usages[j].(qty := newQty)] else usages[..n - 1];
    if j < n - 1 {
      QtyOfUpdate(usages[..n - 1], j, newQty, booking, serviceId);
    }
  }

  /** Every pair's total in `after` is its total in `before`, plus `qty` for the pair (`booking`, `serviceId`). */
  ghost predicate AddsToPair(before: seq<UsageLine>, after: seq<UsageLine>, booking: nat, serviceId: int, qty: int) {
    forall b: nat, s :: QtyOf(after, b, s) == QtyOf(before, b, s) + (if b == booking && s == serviceId then qty else 0)
  }

  /**
   * `add_usage` on success adds exactly `qty` to the total of the staying
   * booking's (reservation, service) pair and leaves every other pair's total
   * alone; a new line is created only when the pair had none, so pairs stay
   * unique.
   */
  lemma AddUsageAddsQuantity(st: Store, roomId: int, serviceId: int, qty: int, now: int)
    requires UniqueLines(st.usages)
    ensures var r := AddUsage(st, roomId, serviceId, qty, now);
            r.ok ==> var booking := StayingBooking(st, roomId).value;
                     && UniqueLines(r.store.usages)
                     && AddsToPair(st.usages, r.store.usages, booking, serviceId, qty)
                     && (|r.store.usages| == |st.usages| <==> LineOf(st.usages, booking, serviceId).Some?)
                     && (LineOf(st.usages, booking, serviceId).Some? ==>
                           var j := LineOf(st.usages, booking, serviceId).value;
                           && r.store.usages[j] == st.usages[j].(qty := st.usages[j].qty + qty)
                           && forall i :: 0 <= i < |st.usages| && i != j ==> r.store.usages[i] == st.usages[i])
                     && (LineOf(st.usages, booking, serviceId).None? ==>
                           r.store.usages == st.usages + [UsageLine(booking, serviceId, qty, now)])
  {
    var r := AddUsage(st, roomId, serviceId, qty, now);
    if r.ok {
      var booking := StayingBooking(st, roomId).value;
      match LineOf(st.usages, booking, serviceId) {
        case Some(j) =>
          assert r.store.usages == st.usages[j := st.usages[j].(qty := st.usages[j].qty + qty)];
        case None =>
          assert r.store.usages == st.usages + [UsageLine(booking, serviceId, qty, now)];
      }
      AddedRows(st.usages, r.store.usages, booking, serviceId, qty, now);
    }
  }

  /**
   * The row-level effect of adding `qty` to a pair, stated over plain
   * sequences: either its one line grows in place or one line is appended.
   */
  lemma AddedRows(usages: seq<UsageLine>, updated: seq<UsageLine>, booking: nat, serviceId: int, qty: int, now: int)
    requires UniqueLines(usages)
    requires LineOf(usages, booking, serviceId).Some? ==>
               var j := LineOf(usages, booking, serviceId).value;
               updated == usages[j := usages[j].(qty := usages[j].qty + qty)]
    requires LineOf(usages, booking, serviceId).None? ==>
               updated == usages + [UsageLine(booking, serviceId, qty, now)]
    ensures UniqueLines(updated)
    ensures AddsToPair(usages, updated, booking, serviceId, qty)
    ensures |updated| == |usages| <==> LineOf(usages, booking, serviceId).Some?
    ensures LineOf(usages, booking, serviceId).Some? ==>
              var j := LineOf(usages, booking, serviceId).value;
              && updated[j] == usages[j].(qty := usages[j].qty + qty)
              && forall i :: 0 <= i < |usages| && i != j ==> updated[i] == usages[i]
  {
    match LineOf(usages, booking, serviceId)
    case Some(j) =>
      UpdateLineQuantities(usages, j, booking, serviceId, qty);
    case None =>
      assert |updated| == |usages| + 1;
      AppendLineQuantities(usages, UsageLine(booking, serviceId, qty, now));
  }

  /** Adding `qty` to line `j` adds it to that line's pair total only; pairs stay unique. */
  lemma UpdateLineQuantities(usages: seq<UsageLine>, j: nat, booking: nat, serviceId: int, qty: int)
    requires UniqueLines(usages) && j < |usages|
    requires usages[j].reservationId == booking && usages[j].serviceId == serviceId
    ensures var updated := usages[j := usages[j].(qty := usages[j].qty + qty)];
            UniqueLines(updated) && AddsToPair(usages, updated, booking, serviceId, qty)
  {
    var line := usages[j];
    forall b: nat, s ensures QtyOf(usages[j := line.(qty := line.qty + qty)], b, s)
                             == QtyOf(usages, b, s) + (if b == booking && s == serviceId then qty else 0) {
      QtyOfUpdate(usages, j, line.qty + qty, b, s);
    }
  }

  /** Appending a line for a pair that had none adds its quantity to that pair only; pairs stay unique. */
  lemma AppendLineQuantities(usages: seq<UsageLine>, line: UsageLine)
    requires UniqueLines(usages)
    requires forall k :: 0 <= k < |usages| ==>
               !(usages[k].reservationId == line.reservationId && usages[k].serviceId == line.serviceId)
    ensures UniqueLines(usages + [line])
    ensures AddsToPair(usages, usages + [line], line.reservationId, line.serviceId, line.qty)
  {
    forall b: nat, s ensures QtyOf(usages + [line], b, s)
                             == QtyOf(usages, b, s) + (if b == line.reservationId && s == line.serviceId then line.qty else 0) {
      QtyOfSnoc(usages, line, b, s);
    }
  }

  /** `add_usage` keeps the foreign keys and CCCD uniqueness. */
  lemma AddUsageValid(st: Store, roomId: int, serviceId: int, qty: int, now: int)
    requires Valid(st)
    ensures Valid(AddUsage(st, roomId, serviceId, qty, now).store)
  {
  }

  // ---------------------------------------------------------------------------
  // OperationRepository.create_booking
  // ---------------------------------------------------------------------------

  /**
   * The guest `SELECT MaKH FROM KhachHang WHERE CCCD = ?` finds: the first one
   * whose CCCD equals the given one up to trailing spaces.
   */
  function GuestByCccd(guests: seq<Guest>, cccd: string): (r: Option<nat>)
    ensures r.Some? ==> r.value < |guests| && SameText(guests[r.value].cccd, cccd)
                        && forall k :: 0 <= k < r.value ==> !SameText(guests[k].cccd, cccd)
    ensures r.None? <==> forall k :: 0 <= k < |guests| ==> !SameText(guests[k].cccd, cccd)
  {
    FirstIndex(guests, (g: Guest) => SameText(g.cccd, cccd))
  }

  /** A CCCD typed with trailing spaces finds the same guest as without them. */
  lemma GuestByCccdIgnoresPadding(guests: seq<Guest>, cccd: string, pad: string)
    requires forall i :: 0 <= i < |pad| ==> pad[i] == ' '
    ensures GuestByCccd(guests, cccd + pad) == GuestByCccd(guests, cccd)
  {
    SqlKeyOfPadded(cccd, pad);
    var padded, plain := GuestByCccd(guests, cccd + pad), GuestByCccd(guests, cccd);
    assert forall k :: 0 <= k < |guests| ==> SameText(guests[k].cccd, cccd + pad) == SameText(guests[k].cccd, cccd);
    if padded.Some? {
      assert plain.Some? && plain.value == padded.value;
    }
  }

  /** One confirmed booking of `guestId` per requested room, in request order. */
  function NewBookings(guestId: nat, roomIds: seq<int>, s: int, e: int): (r: seq<Reservation>)
    ensures |r| == |roomIds|
    ensures forall i :: 0 <= i < |r| ==> r[i] == Reservation(guestId, roomIds[i], s, e, Confirmed)
  {
    seq(|roomIds|, i requires 0 <= i < |roomIds| => Reservation(guestId, roomIds[i], s, e, Confirmed))
  }

  /** Whether the writes of `create_booking` are accepted by the schema. */
  predicate BookingAccepted(st: Store, name: string, cccd: string, phone: string, roomIds: seq<int>) {
    && (forall i :: 0 <= i < |roomIds| ==> roomIds[i] in st.rooms)
    && Utf16Length(SqlKey(name)) <= NameWidth && Utf16Length(SqlKey(phone)) <= PhoneWidth
    && (GuestByCccd(st.guests, cccd).None? ==> Utf16Length(SqlKey(cccd)) <= CccdWidth)
  }

  /** The KhachHang row `create_booking` inserts, each value as its column stores it. */
  function NewGuest(name: string, cccd: string, phone: string): Guest
    requires Utf16Length(SqlKey(name)) <= NameWidth && Utf16Length(SqlKey(phone)) <= PhoneWidth
    requires Utf16Length(SqlKey(cccd)) <= CccdWidth
  {
    Guest(Stored(name, NameWidth), Stored(cccd, CccdWidth), Stored(phone, PhoneWidth))
  }

  /**
   * `create_booking`: the guest with this CCCD gets the new name and phone, or
   * is inserted when there is none; then one 'Đã xác nhận' booking is added per
   * room. A room id with no Phong row (foreign key) or a value its column
   * refuses (`StoreText`) rejects a write, and the rollback undoes the whole
   * call.
   */
  function CreateBooking(st: Store, name: string, cccd: string, phone: string, roomIds: seq<int>, s: int, e: int): (r: Outcome)
    ensures r.ok <==> BookingAccepted(st, name, cccd, phone, roomIds)
    ensures !r.ok ==> r.store == st
    ensures r.ok ==> r.store == st.(guests := r.store.guests, reservations := r.store.reservations)
  {
    if !BookingAccepted(st, name, cccd, phone, roomIds) then Outcome(false, st)
    else
      match GuestByCccd(st.guests, cccd)
      case Some(g) =>
        Outcome(true, st.(guests := st.guests[g := st.guests[g].(name := Stored(name, NameWidth), phone := Stored(phone, PhoneWidth))],
                          reservations := st.reservations + NewBookings(g, roomIds, s, e)))
      case None =>
        Outcome(true, st.(guests := st.guests + [NewGuest(name, cccd, phone)],
                          reservations := st.reservations + NewBookings(|st.guests|, roomIds, s, e)))
  }

  /**
   * The guest upsert: a known CCCD keeps its guest id and its stored CCCD, and
   * only that guest's name and phone are refreshed; an unknown one adds exactly
   * one guest. Either way every
   * new booking belongs to the guest now holding this CCCD, and the old
   * bookings are untouched.
   */
  lemma CreateBookingUpsertsGuest(st: Store, name: string, cccd: string, phone: string, roomIds: seq<int>, s: int, e: int)
    ensures var r := CreateBooking(st, name, cccd, phone, roomIds, s, e);
            r.ok ==>
              var g := GuestByCccd(r.store.guests, cccd);
              && g.Some? && r.store.guests[g.value].name == Stored(name, NameWidth)
              && r.store.guests[g.value].phone == Stored(phone, PhoneWidth)
              && (GuestByCccd(st.guests, cccd).Some? ==>
                    g == GuestByCccd(st.guests, cccd) && |r.store.guests| == |st.guests|
                    && r.store.guests[g.value].cccd == st.guests[g.value].cccd
                    && forall k :: 0 <= k < |st.guests| && k != g.value ==> r.store.guests[k] == st.guests[k])
              && (GuestByCccd(st.guests, cccd).None? ==>
                    g.value == |st.guests| && r.store.guests == st.guests + [NewGuest(name, cccd, phone)])
              && r.store.reservations == st.reservations + NewBookings(g.value, roomIds, s, e)
  {
    var r := CreateBooking(st, name, cccd, phone, roomIds, s, e);
    if r.ok {
      match GuestByCccd(st.guests, cccd)
      case Some(g) =>
        RefreshedGuestFound(st, g, cccd, Stored(name, NameWidth), Stored(phone, PhoneWidth), roomIds, s, e, r.store);
      case None =>
        AppendedGuestFound(st.guests, NewGuest(name, cccd, phone), cccd);
    }
  }

  /** The known-CCCD branch over a plain store: the refreshed guest keeps its id and its CCCD. */
  lemma RefreshedGuestFound(st: Store, g: nat, cccd: string, name: string, phone: string,
                            roomIds: seq<int>, s: int, e: int, st': Store)
    requires GuestByCccd(st.guests, cccd) == Some(g)
    requires st' == st.(guests := st.guests[g := st.guests[g].(name := name, phone := phone)],
                        reservations := st.reservations + NewBookings(g, roomIds, s, e))
    ensures GuestByCccd(st'.guests, cccd) == Some(g) && |st'.guests| == |st.guests|
    ensures st'.guests[g] == st.guests[g].(name := name, phone := phone)
    ensures forall k :: 0 <= k < |st.guests| && k != g ==> st'.guests[k] == st.guests[k]
  {
    FirstMatchAfterUpdate(st.guests, g, st.guests[g].(name := name, phone := phone), cccd);
  }

  /** A guest appended for a CCCD no earlier guest holds is the one the lookup finds. */
  lemma AppendedGuestFound(guests: seq<Guest>, guest: Guest, cccd: string)
    requires GuestByCccd(guests, cccd).None? && SameText(guest.cccd, cccd)
    ensures GuestByCccd(guests + [guest], cccd) == Some(|guests|)
  {
    var guests' := guests + [guest];
    assert SameText(guests'[|guests|].cccd, cccd);
    assert forall k :: 0 <= k < |guests| ==> guests'[k] == guests[k];
  }

  /** Booking for "001 " refreshes the guest stored as "001" rather than adding a second one. */
  lemma PaddedCccdRefreshesGuest(st: Store)
    requires st.guests == [Guest("A", "001", "x")]
    ensures var r := CreateBooking(st, "B", "001 ", "y", [], 0, 1);
            r.ok && r.store.guests == [Guest("B", "001", "y")] && r.store.reservations == st.reservations
  {
    assert "001 " == "001" + " ";
    SqlKeyOfPadded("001", " ");
    assert SameText(st.guests[0].cccd, "001 ");
    ShortTextStored("B", NameWidth);
    ShortTextStored("y", PhoneWidth);
    assert GuestByCccd(st.guests, "001 ") == Some(0);
    var r := CreateBooking(st, "B", "001 ", "y", [], 0, 1);
    assert BookingAccepted(st, "B", "001 ", "y", []);
    var refreshed := st.guests[0 := st.guests[0].(name := "B", phone := "y")];
    assert r.store.guests == refreshed;
    assert |refreshed| == 1 && refreshed[0] == Guest("B", "001", "y");
    assert r.store.reservations == st.reservations + NewBookings(0, [], 0, 1);
    assert NewBookings(0, [], 0, 1) == [];
  }

  /** Refreshing the first guest with a CCCD, keeping its CCCD, keeps it the first one with that CCCD. */
  lemma FirstMatchAfterUpdate(guests: seq<Guest>, g: nat, guest: Guest, cccd: string)
    requires GuestByCccd(guests, cccd) == Some(g) && guest.cccd == guests[g].cccd
    ensures GuestByCccd(guests[g := guest], cccd) == Some(g)
  {
    var guests' := guests[g := guest];
    var r := GuestByCccd(guests', cccd);
    assert SameText(guests'[g].cccd, cccd);
    assert forall k :: 0 <= k < g ==> !SameText(guests'[k].cccd, cccd);
  }

  /** `create_booking` keeps the foreign keys and the uniqueness of CCCD. */
  lemma CreateBookingValid(st: Store, name: string, cccd: string, phone: string, roomIds: seq<int>, s: int, e: int)
    requires Valid(st)
    ensures Valid(CreateBooking(st, name, cccd, phone, roomIds, s, e).store)
  {
    if BookingAccepted(st, name, cccd, phone, roomIds) {
      match GuestByCccd(st.guests, cccd)
      case Some(g) =>
        RefreshGuestValid(st, g, Stored(name, NameWidth), Stored(phone, PhoneWidth), roomIds, s, e);
      case None =>
        AppendGuestValid(st, NewGuest(name, cccd, phone), roomIds, s, e);
    }
  }

  /** New bookings for an existing guest and existing rooms keep the booking foreign keys. */
  lemma AppendBookingsKeys(st: Store, guestId: nat, roomIds: seq<int>, s: int, e: int)
    requires BookingKeys(st) && guestId < |st.guests|
    requires forall i :: 0 <= i < |roomIds| ==> roomIds[i] in st.rooms
    ensures BookingKeys(st.(reservations := st.reservations + NewBookings(guestId, roomIds, s, e)))
  {
    var res := st.reservations + NewBookings(guestId, roomIds, s, e);
    forall k | |st.reservations| <= k < |res| ensures res[k].guestId < |st.guests| && res[k].roomId in st.rooms {
      assert res[k] == NewBookings(guestId, roomIds, s, e)[k - |st.reservations|];
    }
  }

  /** The known-CCCD branch: refreshing a guest's name and phone keeps every constraint. */
  lemma RefreshGuestValid(st: Store, g: nat, name: string, phone: string, roomIds: seq<int>, s: int, e: int)
    requires Valid(st) && g < |st.guests|
    requires forall i :: 0 <= i < |roomIds| ==> roomIds[i] in st.rooms
    ensures Valid(st.(guests := st.guests[g := st.guests[g].(name := name, phone := phone)],
                      reservations := st.reservations + NewBookings(g, roomIds, s, e)))
  {
    var guests := st.guests[g := st.guests[g].(name := name, phone := phone)];
    assert forall k :: 0 <= k < |guests| ==> guests[k].cccd == st.guests[k].cccd;
    AppendBookingsKeys(st.(guests := guests), g, roomIds, s, e);
  }

  /** The new-CCCD branch: appending a guest whose CCCD matches none keeps every constraint. */
  lemma AppendGuestValid(st: Store, guest: Guest, roomIds: seq<int>, s: int, e: int)
    requires Valid(st)
    requires forall k :: 0 <= k < |st.guests| ==> !SameText(st.guests[k].cccd, guest.cccd)
    requires forall i :: 0 <= i < |roomIds| ==> roomIds[i] in st.rooms
    ensures Valid(st.(guests := st.guests + [guest],
                      reservations := st.reservations + NewBookings(|st.guests|, roomIds, s, e)))
  {
    var guests := st.guests + [guest];
    assert forall k :: 0 <= k < |st.guests| ==> guests[k] == st.guests[k];
    AppendBookingsKeys(st.(guests := guests), |st.guests|, roomIds, s, e);
  }

  /**
   * The booking screen's rule keeps rooms from being double booked: when the
   * requested rooms are distinct and none of them is in `get_conflict_ids` for
   * the requested range, the new bookings overlap no active booking of the
   * same room.
   */
  lemma CreateBookingNoDoubleBooking(st: Store, name: string, cccd: string, phone: string, roomIds: seq<int>, s: int, e: int)
    requires NoDoubleBooking(st.reservations)
    requires Distinct(roomIds)
    requires forall i :: 0 <= i < |roomIds| ==> roomIds[i] !in ConflictIds(st.reservations, s, e)
    ensures NoDoubleBooking(CreateBooking(st, name, cccd, phone, roomIds, s, e).store.reservations)
  {
    if BookingAccepted(st, name, cccd, phone, roomIds) {
      match GuestByCccd(st.guests, cccd)
      case Some(g) => NewBookingsSafe(st.reservations, g, roomIds, s, e);
      case None => NewBookingsSafe(st.reservations, |st.guests|, roomIds, s, e);
    }
  }

  /** Appending bookings of distinct rooms that the conflict query does not report keeps `NoDoubleBooking`. */
  lemma NewBookingsSafe(reservations: seq<Reservation>, guestId: nat, roomIds: seq<int>, s: int, e: int)
    requires NoDoubleBooking(reservations)
    requires Distinct(roomIds)
    requires forall i :: 0 <= i < |roomIds| ==> roomIds[i] !in ConflictIds(reservations, s, e)
    ensures NoDoubleBooking(reservations + NewBookings(guestId, roomIds, s, e))
  {
    var added := NewBookings(guestId, roomIds, s, e);
    var res := reservations + added;
    var n := |reservations|;
    assert forall i, j :: n <= i < j < |res| ==> res[i].roomId != res[j].roomId by {
      forall i, j | n <= i < j < |res| ensures res[i].roomId != res[j].roomId {
        assert res[i] == added[i - n] && res[j] == added[j - n];
      }
    }
    forall i, j | 0 <= i < j < |res| && res[i].roomId == res[j].roomId
      ensures !(Conflicts(res[i], res[j].arrival, res[j].departure) && Active(res[j].status))
    {
      if j < n {
        assert res[i] == reservations[i] && res[j] == reservations[j];
      } else {
        assert i < n;
        assert res[i] == reservations[i] && res[j] == added[j - n];
        ConflictIdsMembership(reservations, s, e, roomIds[j - n]);
      }
    }
  }

  // ---------------------------------------------------------------------------
  // OperationRepository.check_in
  // ---------------------------------------------------------------------------

  /** A 'Đã xác nhận' booking of the guest holding this CCCD: a row of the `bookings` query. */
  predicate BookedBy(st: Store, cccd: string, k: int) {
    && 0 <= k < |st.reservations|
    && st.reservations[k].status == Confirmed
    && st.reservations[k].guestId < |st.guests|
    && SameText(st.guests[st.reservations[k].guestId].cccd, cccd)
  }

  /** Such a booking whose arrival is `today`: a row of `valid_bookings`. */
  predicate DueToday(st: Store, cccd: string, today: int, k: int) {
    BookedBy(st, cccd, k) && st.reservations[k].arrival == today
  }

  /** The ids `BookedBy` among the first `n` bookings, ascending. */
  function Bookings(st: Store, cccd: string, n: nat): (r: seq<nat>)
    requires n <= |st.reservations|
    ensures forall k :: k in r <==> k < n && BookedBy(st, cccd, k)
    ensures forall i :: 0 <= i < |r| ==> r[i] < n
    ensures forall i, j :: 0 <= i < j < |r| ==> r[i] < r[j]
  {
    IndicesWhere(n, BookedByAt(st, cccd))
  }

  /** `BookedBy` as the filter of the query. */
  function BookedByAt(st: Store, cccd: string): (p: nat -> bool)
    ensures forall k: nat :: p(k) == BookedBy(st, cccd, k)
  {
    k => BookedBy(st, cccd, k)
  }

  /** The `valid_bookings` filter: the bookings arriving `today`, order kept. */
  function ArrivingOn(st: Store, bookings: seq<nat>, today: int): (r: seq<nat>)
    requires forall i :: 0 <= i < |bookings| ==> bookings[i] < |st.reservations|
    requires forall i, j :: 0 <= i < j < |bookings| ==> bookings[i] < bookings[j]
    ensures forall k :: k in r <==> k in bookings && st.reservations[k].arrival == today
    ensures forall i :: 0 <= i < |r| ==> r[i] < |st.reservations|
    ensures forall i, j :: 0 <= i < j < |r| ==> r[i] < r[j]
  {
    if |bookings| == 0 then []
    else
      var rest := ArrivingOn(st, bookings[1..], today);
      assert forall i :: 0 <= i < |rest| ==> bookings[0] < rest[i] by {
        forall i | 0 <= i < |rest| ensures bookings[0] < rest[i] {
          assert rest[i] in rest;
          var j :| 0 <= j < |bookings[1..]| && bookings[1..][j] == rest[i];
          assert bookings[j + 1] == rest[i];
        }
      }
      if st.reservations[bookings[0]].arrival == today then [bookings[0]] + rest else rest
  }

  /** Whether booking `k` already has an invoice (`SELECT 1 FROM HoaDon WHERE MaPD = ?`). */
  predicate HasInvoice(invoices: seq<Invoice>, k: nat) {
    exists i :: 0 <= i < |invoices| && invoices[i].reservationId == k
  }

  /** The three writes for one due booking: it and its room become 'Đang ở'; an unpaid invoice is opened unless one exists. */
  function CheckInOne(st: Store, k: nat, now: int): (st': Store)
    requires k < |st.reservations|
    ensures |st'.reservations| == |st.reservations| && st'.rooms.Keys == st.rooms.Keys
  {
    var b := st.reservations[k];
    var rooms := if b.roomId in st.rooms then st.rooms[b.roomId := st.rooms[b.roomId].(status := Occupied)] else st.rooms;
    var invoices := if HasInvoice(st.invoices, k) then st.invoices else st.invoices + [Invoice(k, now, 0, 0, Unpaid)];
    st.(reservations := st.reservations[k := b.(status := Staying)], rooms := rooms, invoices := invoices)
  }

  /** The `for vb in valid_bookings` loop. */
  function CheckInAll(st: Store, due: seq<nat>, now: int): (st': Store)
    requires forall i :: 0 <= i < |due| ==> due[i] < |st.reservations|
    ensures |st'.reservations| == |st.reservations| && st'.rooms.Keys == st.rooms.Keys
    decreases |due|
  {
    if |due| == 0 then st
    else CheckInAll(CheckInOne(st, due[0], now), due[1..], now)
  }

  /** `check_in`'s result: success, the store, and the `rooms` list it reports. */
  datatype CheckInResult = CheckInResult(ok: bool, store: Store, rooms: seq<int>)

  /**
   * `check_in(cccd)` on day `today` at time `now`: fails when the guest has no
   * confirmed booking, or none arriving today; otherwise checks in every
   * booking arriving today and reports their rooms.
   */
  function CheckIn(st: Store, cccd: string, today: int, now: int): (r: CheckInResult)
    ensures r.ok <==> exists k :: DueToday(st, cccd, today, k)
    ensures !r.ok ==> r.store == st && r.rooms == []
  {
    var bookings := Bookings(st, cccd, |st.reservations|);
    if |bookings| == 0 then
      assert forall k :: !DueToday(st, cccd, today, k);
      CheckInResult(false, st, [])
    else
      var due := ArrivingOn(st, bookings, today);
      if |due| == 0 then
        assert forall k :: DueToday(st, cccd, today, k) ==> k in due;
        CheckInResult(false, st, [])
      else
        assert DueToday(st, cccd, today, due[0]);
        CheckInResult(true, CheckInAll(st, due, now), RoomsOf(st, due))
  }

  /** The `bookings` query is the same for a CCCD typed with trailing spaces. */
  lemma BookingsIgnorePadding(st: Store, cccd: string, pad: string, n: nat)
    requires forall i :: 0 <= i < |pad| ==> pad[i] == ' '
    requires n <= |st.reservations|
    ensures Bookings(st, cccd + pad, n) == Bookings(st, cccd, n)
  {
    SqlKeyOfPadded(cccd, pad);
    IndicesWhereAgree(n, BookedByAt(st, cccd + pad), BookedByAt(st, cccd));
  }

  /** `check_in` with trailing spaces after the CCCD does exactly what it does without them. */
  lemma CheckInIgnoresPadding(st: Store, cccd: string, pad: string, today: int, now: int)
    requires forall i :: 0 <= i < |pad| ==> pad[i] == ' '
    ensures CheckIn(st, cccd + pad, today, now) == CheckIn(st, cccd, today, now)
  {
    BookingsIgnorePadding(st, cccd, pad, |st.reservations|);
  }

  /** The `rooms` list `check_in` reports: the room of each checked-in booking, in order. */
  function RoomsOf(st: Store, due: seq<nat>): (r: seq<int>)
    requires forall i :: 0 <= i < |due| ==> due[i] < |st.reservations|
    ensures |r| == |due| && forall i :: 0 <= i < |due| ==> r[i] == st.reservations[due[i]].roomId
  {
    seq(|due|, i requires 0 <= i < |due| => st.reservations[due[i]].roomId)
  }

  /** The due bookings, as `check_in` computes them. */
  function DueList(st: Store, cccd: string, today: int): (r: seq<nat>)
    ensures forall k :: k in r <==> DueToday(st, cccd, today, k)
    ensures forall i :: 0 <= i < |r| ==> r[i] < |st.reservations|
    ensures forall i, j :: 0 <= i < j < |r| ==> r[i] < r[j]
  {
    ArrivingOn(st, Bookings(st, cccd, |st.reservations|), today)
  }

  lemma {:induction false} CheckInAllBookings(st: Store, due: seq<nat>, now: int, k: nat)
    requires forall i :: 0 <= i < |due| ==> due[i] < |st.reservations|
    requires k < |st.reservations|
    ensures CheckInAll(st, due, now).reservations[k]
            == if k in due then st.reservations[k].(status := Staying) else st.reservations[k]
    decreases |due|
  {
    if |due| > 0 {
      var st1 := CheckInOne(st, due[0], now);
      CheckInAllBookings(st1, due[1..], now, k);
      assert k in due <==> k == due[0] || k in due[1..];
    }
  }

  /** The room a booking in `due` occupies. */
  predicate RoomOfSome(st: Store, due: seq<nat>, id: int) {
    exists i :: 0 <= i < |due| && due[i] < |st.reservations| && st.reservations[due[i]].roomId == id
  }

  lemma {:induction false} CheckInAllRooms(st: Store, due: seq<nat>, now: int, id: int)
    requires forall i :: 0 <= i < |due| ==> due[i] < |st.reservations|
    requires id in st.rooms
    ensures CheckInAll(st, due, now).rooms[id]
            == if RoomOfSome(st, due, id) then st.rooms[id].(status := Occupied) else st.rooms[id]
    decreases |due|
  {
    if |due| > 0 {
      var st1 := CheckInOne(st, due[0], now);
      CheckInAllRooms(st1, due[1..], now, id);
      assert forall j :: 0 <= j < |st.reservations| ==> st1.reservations[j].roomId == st.reservations[j].roomId;
      RoomOfSomeStep(st, st1, due, id);
    }
  }

  /** A room is among the rooms of `due` iff it is the first one's or among the rest's. */
  lemma RoomOfSomeStep(st: Store, st1: Store, due: seq<nat>, id: int)
    requires |due| > 0 && forall i :: 0 <= i < |due| ==> due[i] < |st.reservations|
    requires |st1.reservations| == |st.reservations|
    requires forall j :: 0 <= j < |st.reservations| ==> st1.reservations[j].roomId == st.reservations[j].roomId
    ensures RoomOfSome(st, due, id) <==> st.reservations[due[0]].roomId == id || RoomOfSome(st1, due[1..], id)
  {
    if RoomOfSome(st1, due[1..], id) {
      var i :| 0 <= i < |due[1..]| && due[1..][i] < |st1.reservations| && st1.reservations[due[1..][i]].roomId == id;
      assert due[i + 1] == due[1..][i];
    }
    if RoomOfSome(st, due, id) {
      var i :| 0 <= i < |due| && due[i] < |st.reservations| && st.reservations[due[i]].roomId == id;
      if i > 0 {
        assert due[1..][i - 1] == due[i];
      }
    }
  }

  lemma CheckInAllInvoices(st: Store, due: seq<nat>, now: int)
    requires forall i :: 0 <= i < |due| ==> due[i] < |st.reservations|
    requires forall i, j :: 0 <= i < j < |due| ==> due[i] < due[j]
    ensures var invoices := CheckInAll(st, due, now).invoices;
            && |st.invoices| <= |invoices| && invoices[..|st.invoices|] == st.invoices
            && (forall i :: 0 <= i < |due| ==> HasInvoice(invoices, due[i]))
            && (forall i :: |st.invoices| <= i < |invoices| ==>
                  invoices[i] == Invoice(invoices[i].reservationId, now, 0, 0, Unpaid)
                  && invoices[i].reservationId in due && !HasInvoice(st.invoices, invoices[i].reservationId))
            && (forall i, j :: |st.invoices| <= i < j < |invoices| ==> invoices[i].reservationId != invoices[j].reservationId)
  {
    CheckInAllKeepsInvoices(st, due, now);
    CheckInAllCovers(st, due, now);
    CheckInAllNewInvoices(st, due, now);
    CheckInAllNewDistinct(st, due, now);
  }

  /** The check-in loop only appends invoices. */
  lemma {:induction false} CheckInAllKeepsInvoices(st: Store, due: seq<nat>, now: int)
    requires forall i :: 0 <= i < |due| ==> due[i] < |st.reservations|
    ensures |st.invoices| <= |CheckInAll(st, due, now).invoices|
    ensures CheckInAll(st, due, now).invoices[..|st.invoices|] == st.invoices
    decreases |due|
  {
    if |due| > 0 {
      var st1 := CheckInOne(st, due[0], now);
      CheckInAllKeepsInvoices(st1, due[1..], now);
      var invoices := CheckInAll(st, due, now).invoices;
      var n, n1 := |st.invoices|, |st1.invoices|;
      assert invoices == CheckInAll(st1, due[1..], now).invoices;
      assert st1.invoices[..n] == st.invoices;
      assert invoices[..n] == invoices[..n1][..n];
    }
  }

  /** After the loop, every due booking has an invoice. */
  lemma {:induction false} CheckInAllCovers(st: Store, due: seq<nat>, now: int)
    requires forall i :: 0 <= i < |due| ==> due[i] < |st.reservations|
    ensures forall i :: 0 <= i < |due| ==> HasInvoice(CheckInAll(st, due, now).invoices, due[i])
    decreases |due|
  {
    if |due| > 0 {
      var k := due[0];
      var st1 := CheckInOne(st, k, now);
      var invoices := CheckInAll(st, due, now).invoices;
      assert invoices == CheckInAll(st1, due[1..], now).invoices;
      CheckInAllCovers(st1, due[1..], now);
      CheckInAllKeepsInvoices(st1, due[1..], now);
      var n1 := |st1.invoices|;
      assert HasInvoice(st1.invoices, k) by {
        if !HasInvoice(st.invoices, k) {
          assert st1.invoices[|st.invoices|].reservationId == k;
        }
      }
      forall i | 0 <= i < |due| ensures HasInvoice(invoices, due[i]) {
        if i == 0 {
          var w :| 0 <= w < n1 && st1.invoices[w].reservationId == k;
          assert invoices[w] == invoices[..n1][w];
        } else {
          assert due[i] == due[1..][i - 1];
        }
      }
    }
  }

  /** Each invoice the loop appends is a fresh unpaid one for a due booking that had none. */
  lemma {:induction false} CheckInAllNewInvoices(st: Store, due: seq<nat>, now: int)
    requires forall i :: 0 <= i < |due| ==> due[i] < |st.reservations|
    ensures var invoices := CheckInAll(st, due, now).invoices;
            forall i :: |st.invoices| <= i < |invoices| ==>
              invoices[i] == Invoice(invoices[i].reservationId, now, 0, 0, Unpaid)
              && invoices[i].reservationId in due && !HasInvoice(st.invoices, invoices[i].reservationId)
    decreases |due|
  {
    if |due| > 0 {
      var k := due[0];
      var st1 := CheckInOne(st, k, now);
      var invoices := CheckInAll(st, due, now).invoices;
      assert invoices == CheckInAll(st1, due[1..], now).invoices;
      CheckInAllNewInvoices(st1, due[1..], now);
      CheckInAllKeepsInvoices(st1, due[1..], now);
      var n, n1 := |st.invoices|, |st1.invoices|;
      forall i | n <= i < |invoices|
        ensures invoices[i] == Invoice(invoices[i].reservationId, now, 0, 0, Unpaid)
        ensures invoices[i].reservationId in due && !HasInvoice(st.invoices, invoices[i].reservationId)
      {
        if i < n1 {
          assert invoices[i] == invoices[..n1][i] == st1.invoices[i];
          assert n1 == n + 1 && st1.invoices[n] == Invoice(k, now, 0, 0, Unpaid);
        } else {
          var x := invoices[i].reservationId;
          assert !HasInvoice(st1.invoices, x);
          forall w | 0 <= w < n ensures st.invoices[w].reservationId != x {
            assert st1.invoices[w] == st.invoices[w];
          }
        }
      }
    }
  }

  /** No two appended invoices are for the same booking. */
  lemma {:induction false} CheckInAllNewDistinct(st: Store, due: seq<nat>, now: int)
    requires forall i :: 0 <= i < |due| ==> due[i] < |st.reservations|
    requires forall i, j :: 0 <= i < j < |due| ==> due[i] < due[j]
    ensures var invoices := CheckInAll(st, due, now).invoices;
            forall i, j :: |st.invoices| <= i < j < |invoices| ==> invoices[i].reservationId != invoices[j].reservationId
    decreases |due|
  {
    if |due| > 0 {
      var k := due[0];
      var st1 := CheckInOne(st, k, now);
      var invoices := CheckInAll(st, due, now).invoices;
      assert invoices == CheckInAll(st1, due[1..], now).invoices;
      CheckInAllNewDistinct(st1, due[1..], now);
      CheckInAllNewInvoices(st1, due[1..], now);
      CheckInAllKeepsInvoices(st1, due[1..], now);
      var n, n1 := |st.invoices|, |st1.invoices|;
      forall i, j | n <= i < j < |invoices| ensures invoices[i].reservationId != invoices[j].reservationId {
        if i < n1 {
          assert invoices[i] == invoices[..n1][i] == st1.invoices[i];
          assert invoices[i].reservationId == k;
          assert invoices[j].reservationId in due[1..];
        }
      }
    }
  }

  /**
   * `check_in` on success moves exactly the bookings arriving today from
   * 'Đã xác nhận' to 'Đang ở' (every other booking, including the guest's
   * bookings for other days, is untouched), marks their rooms occupied, and
   * leaves every other room alone.
   */
  lemma CheckInTransitions(st: Store, cccd: string, today: int, now: int)
    ensures var r := CheckIn(st, cccd, today, now);
            r.ok ==> CheckInWrites(st, r.store, cccd, today) && r.rooms == RoomsOf(st, DueList(st, cccd, today))
  {
    var r := CheckIn(st, cccd, today, now);
    if r.ok {
      var due := DueList(st, cccd, today);
      forall k | 0 <= k < |st.reservations| ensures r.store.reservations[k]
          == if DueToday(st, cccd, today, k) then st.reservations[k].(status := Staying) else st.reservations[k] {
        CheckInAllBookings(st, due, now, k);
      }
      forall id | id in st.rooms ensures r.store.rooms[id]
          == if RoomOfSome(st, due, id) then st.rooms[id].(status := Occupied) else st.rooms[id] {
        CheckInAllRooms(st, due, now, id);
      }
      CheckInAllOthers(st, due, now);
    }
  }

  /**
   * The writes of a successful `check_in`: exactly the bookings due today
   * become 'Đang ở', exactly their rooms become occupied, and guests, services
   * and usage lines stay as they were.
   */
  predicate CheckInWrites(st: Store, st': Store, cccd: string, today: int) {
    && |st'.reservations| == |st.reservations|
    && (forall k :: 0 <= k < |st.reservations| ==>
          st'.reservations[k]
          == if DueToday(st, cccd, today, k) then st.reservations[k].(status := Staying) else st.reservations[k])
    && st'.rooms.Keys == st.rooms.Keys
    && (forall id :: id in st.rooms ==>
          st'.rooms[id]
          == if RoomOfSome(st, DueList(st, cccd, today), id) then st.rooms[id].(status := Occupied) else st.rooms[id])
    && st'.guests == st.guests && st'.services == st.services && st'.usages == st.usages
  }

  lemma {:induction false} CheckInAllOthers(st: Store, due: seq<nat>, now: int)
    requires forall i :: 0 <= i < |due| ==> due[i] < |st.reservations|
    ensures var st' := CheckInAll(st, due, now);
            st'.guests == st.guests && st'.services == st.services && st'.usages == st.usages
    decreases |due|
  {
    if |due| > 0 {
      CheckInAllOthers(CheckInOne(st, due[0], now), due[1..], now);
    }
  }

  /**
   * `check_in` on success opens an unpaid invoice for every booking it checks
   * in that had none, and only for those: existing invoices are kept as they
   * are and no booking gets two new ones.
   */
  lemma CheckInOpensInvoices(st: Store, cccd: string, today: int, now: int)
    ensures var r := CheckIn(st, cccd, today, now);
            var invoices := r.store.invoices;
            r.ok ==>
              && |st.invoices| <= |invoices| && invoices[..|st.invoices|] == st.invoices
              && (forall k :: DueToday(st, cccd, today, k) ==> HasInvoice(invoices, k))
              && (forall i :: |st.invoices| <= i < |invoices| ==>
                    invoices[i] == Invoice(invoices[i].reservationId, now, 0, 0, Unpaid)
                    && DueToday(st, cccd, today, invoices[i].reservationId)
                    && !HasInvoice(st.invoices, invoices[i].reservationId))
              && (forall i, j :: |st.invoices| <= i < j < |invoices| ==> invoices[i].reservationId != invoices[j].reservationId)
  {
    var r := CheckIn(st, cccd, today, now);
    if r.ok {
      var due := DueList(st, cccd, today);
      CheckInAllInvoices(st, due, now);
      forall k | DueToday(st, cccd, today, k) ensures HasInvoice(r.store.invoices, k) {
        var i :| 0 <= i < |due| && due[i] == k;
      }
    }
  }

  /** `check_in` keeps the foreign keys and the uniqueness of CCCD. */
  lemma CheckInValid(st: Store, cccd: string, today: int, now: int)
    requires Valid(st)
    ensures Valid(CheckIn(st, cccd, today, now).store)
  {
    var r := CheckIn(st, cccd, today, now);
    if r.ok {
      CheckInTransitions(st, cccd, today, now);
      CheckInOpensInvoices(st, cccd, today, now);
      CheckInWritesKeepKeys(st, r.store, cccd, today);
      GrownInvoiceKeys(st, r.store);
    }
  }

  /** Changing only booking and room statuses keeps the booking, usage and CCCD constraints. */
  lemma CheckInWritesKeepKeys(st: Store, st': Store, cccd: string, today: int)
    requires Valid(st) && CheckInWrites(st, st', cccd, today)
    ensures BookingKeys(st') && UsageKeys(st') && UniqueCccd(st'.guests)
  {
    forall k | 0 <= k < |st'.reservations|
      ensures st'.reservations[k].guestId == st.reservations[k].guestId && st'.reservations[k].roomId == st.reservations[k].roomId {
    }
  }

  /** Keeping the old invoices as a prefix and adding invoices for existing bookings keeps the invoice key. */
  lemma GrownInvoiceKeys(st: Store, st': Store)
    requires InvoiceKeys(st) && |st'.reservations| == |st.reservations|
    requires |st.invoices| <= |st'.invoices| && st'.invoices[..|st.invoices|] == st.invoices
    requires forall i :: |st.invoices| <= i < |st'.invoices| ==> st'.invoices[i].reservationId < |st.reservations|
    ensures InvoiceKeys(st')
  {
    forall i | 0 <= i < |st.invoices| ensures st'.invoices[i] == st.invoices[i] {
      assert st'.invoices[i] == st'.invoices[..|st.invoices|][i];
    }
  }

  /**
   * `check_in` leaves `get_conflict_ids` unchanged for every range: 'Đã xác
   * nhận' and 'Đang ở' both hold the room, and the dates and rooms stay.
   */
  lemma CheckInKeepsConflicts(st: Store, cccd: string, today: int, now: int, s: int, e: int)
    ensures ConflictIds(CheckIn(st, cccd, today, now).store.reservations, s, e) == ConflictIds(st.reservations, s, e)
  {
    var r := CheckIn(st, cccd, today, now);
    if r.ok {
      CheckInTransitions(st, cccd, today, now);
      SameConflicts(st.reservations, r.store.reservations, s, e);
    }
  }

  /** Bookings that differ only between active statuses report the same conflicts. */
  lemma {:induction false} SameConflicts(a: seq<Reservation>, b: seq<Reservation>, s: int, e: int)
    requires |a| == |b|
    requires forall k :: 0 <= k < |a| ==> b[k] == a[k] || (b[k] == a[k].(status := Staying) && Active(a[k].status))
    ensures ConflictIds(b, s, e) == ConflictIds(a, s, e)
    decreases |a|
  {
    if |a| > 0 {
      SameConflicts(a[..|a| - 1], b[..|b| - 1], s, e);
    }
  }

  // ---------------------------------------------------------------------------
  // OperationRepository.checkout
  // ---------------------------------------------------------------------------

  /**
   * `checkout(room_id, bill, surcharge)`: invoice `bill.maHd` gets total
   * `grand_total + surcharge`, the surcharge and 'Đã thanh toán'; the room
   * becomes 'Đang dọn' with an empty note; booking `bill.maPd` becomes
   * 'Hoàn tất'. An UPDATE naming no row changes nothing. An amount that does
   * not fit DECIMAL(18,0) rejects the write and the rollback undoes the call.
   */
  function Checkout(st: Store, roomId: int, bill: BillDetail, surcharge: int): (r: Outcome)
    ensures r.ok <==> FitsDecimal18(bill.grandTotal + surcharge) && FitsDecimal18(surcharge)
    ensures !r.ok ==> r.store == st
    ensures r.ok ==>
              && r.store.guests == st.guests && r.store.services == st.services && r.store.usages == st.usages
              && |r.store.invoices| == |st.invoices| && |r.store.reservations| == |st.reservations|
              && r.store.rooms.Keys == st.rooms.Keys
  {
    var finalTotal := bill.grandTotal + surcharge;
    if !FitsDecimal18(finalTotal) || !FitsDecimal18(surcharge) then Outcome(false, st)
    else
      var invoices :=
        if 0 <= bill.maHd < |st.invoices| then
          st.invoices[bill.maHd := st.invoices[bill.maHd].(total := finalTotal, surcharge := surcharge, status := Paid)]
        else st.invoices;
      var rooms :=
        if roomId in st.rooms then st.rooms[roomId := st.rooms[roomId].(status := Cleaning, note := "")]
        else st.rooms;
      var reservations :=
        if 0 <= bill.maPd < |st.reservations| then
          st.reservations[bill.maPd := st.reservations[bill.maPd].(status := Completed)]
        else st.reservations;
      Outcome(true, st.(invoices := invoices, rooms := rooms, reservations := reservations))
  }

  /**
   * The three coordinated writes of `checkout`, and that nothing else changes:
   * the invoice is paid with the bill plus surcharge, the room is being
   * cleaned with its note cleared, the booking is completed.
   */
  lemma CheckoutWrites(st: Store, roomId: int, bill: BillDetail, surcharge: int)
    ensures var r := Checkout(st, roomId, bill, surcharge);
            r.ok ==>
              && (forall i :: 0 <= i < |st.invoices| ==>
                    r.store.invoices[i]
                    == if i == bill.maHd
                       then Invoice(st.invoices[i].reservationId, st.invoices[i].createdAt,
                                    bill.grandTotal + surcharge, surcharge, Paid)
                       else st.invoices[i])
              && (forall id :: id in st.rooms ==>
                    r.store.rooms[id]
                    == if id == roomId then RoomRow(Cleaning, st.rooms[id].typeId, "") else st.rooms[id])
              && (forall k :: 0 <= k < |st.reservations| ==>
                    r.store.reservations[k]
                    == if k == bill.maPd then st.reservations[k].(status := Completed) else st.reservations[k])
  {
  }

  /**
   * After checkout the completed booking holds its room on no night, and no
   * range reports a room busy that was free before.
   */
  lemma CheckoutReleasesRoom(st: Store, roomId: int, bill: BillDetail, surcharge: int, s: int, e: int)
    ensures var r := Checkout(st, roomId, bill, surcharge);
            r.ok && 0 <= bill.maPd < |st.reservations| ==> !Conflicts(r.store.reservations[bill.maPd], s, e)
    ensures var r := Checkout(st, roomId, bill, surcharge);
            forall id :: id in ConflictIds(r.store.reservations, s, e) ==> id in ConflictIds(st.reservations, s, e)
  {
    var r := Checkout(st, roomId, bill, surcharge);
    forall id | id in ConflictIds(r.store.reservations, s, e) ensures id in ConflictIds(st.reservations, s, e) {
      ConflictIdsMembership(r.store.reservations, s, e, id);
      ConflictIdsMembership(st.reservations, s, e, id);
      var k :| 0 <= k < |r.store.reservations| && r.store.reservations[k].roomId == id
               && Conflicts(r.store.reservations[k], s, e);
      assert r.store.reservations[k] == st.reservations[k];
    }
  }

  /** `checkout` keeps the foreign keys and the uniqueness of CCCD. */
  lemma CheckoutValid(st: Store, roomId: int, bill: BillDetail, surcharge: int)
    requires Valid(st)
    ensures Valid(Checkout(st, roomId, bill, surcharge).store)
  {
    CheckoutWrites(st, roomId, bill, surcharge);
  }

  // ---------------------------------------------------------------------------
  // The booking screen: get_conflict_ids feeding analyze_availability
  // ---------------------------------------------------------------------------

  /**
   * A room is offered for [s, e) exactly when it is not under maintenance and
   * none of its bookings is active and overlaps the range; it is offered only
   * under its own type.
   */
  lemma OfferedIffNoConflict(st: Store, allRooms: seq<Room>, s: int, e: int, k: int)
    requires forall i, j :: 0 <= i < j < |allRooms| ==> allRooms[i].id != allRooms[j].id
    requires 0 <= k < |allRooms|
    ensures var stats := Availability.AnalyzeAvailability(allRooms, ConflictIds(st.reservations, s, e));
            var room := allRooms[k];
            && ((exists i :: 0 <= i < |stats| && stats[i].id == room.typeId && room.id in stats[i].roomIds)
                <==> room.status != Maintenance
                     && forall b :: 0 <= b < |st.reservations| && st.reservations[b].roomId == room.id ==>
                          !Conflicts(st.reservations[b], s, e))
            && forall i :: 0 <= i < |stats| && stats[i].id != room.typeId ==> room.id !in stats[i].roomIds
  {
    Availability.ListedIffFree(allRooms, ConflictIds(st.reservations, s, e), k);
    ConflictIdsMembership(st.reservations, s, e, allRooms[k].id);
  }

  /**
   * Booking distinct rooms taken from one entry of the availability analysis
   * for [s, e), as the booking screen does, never double books a room.
   */
  lemma BookingOfferedRoomsIsSafe(st: Store, allRooms: seq<Room>, s: int, e: int, entry: int,
                                  picked: seq<int>, name: string, cccd: string, phone: string)
    requires NoDoubleBooking(st.reservations)
    requires 0 <= entry < |Availability.AnalyzeAvailability(allRooms, ConflictIds(st.reservations, s, e))|
    requires forall i :: 0 <= i < |picked| ==>
               picked[i] in Availability.AnalyzeAvailability(allRooms, ConflictIds(st.reservations, s, e))[entry].roomIds
    requires Distinct(picked)
    ensures NoDoubleBooking(CreateBooking(st, name, cccd, phone, picked, s, e).store.reservations)
  {
    var conflictIds := ConflictIds(st.reservations, s, e);
    var busy := Availability.Busy(conflictIds);
    var stats := Availability.AnalyzeAvailability(allRooms, conflictIds);
    forall i | 0 <= i < |picked| ensures picked[i] !in conflictIds {
      Availability.FreeIdsMembership(allRooms, busy, stats[entry].id, picked[i]);
    }
    CreateBookingNoDoubleBooking(st, name, cccd, phone, picked, s, e);
  }
}
