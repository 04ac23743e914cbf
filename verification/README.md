# Hotel management core in Dafny

A model of the logic of a small hotel-management application (Python over SQL
Server), with proofs about it. The model covers four parts:

- **The room and service algorithms of the desktop front end** (`services.py`):
  - the availability analysis that groups free rooms by room type;
  - a stable merge sort and a binary membership search;
  - the day-based bill;
  - choosing the tightest run of room numbers for a multi-room booking;
  - the budget-bounded service-combo search that keeps the top five.
- **The same algorithms in the command-line front end** (`utils.py`):
  - the availability analysis over dictionary rows;
  - a binary search that returns the room record;
  - the hour-based bill breakdown;
  - merge sort by price, with its `_merge` helper.
- **The algorithm lab** (`benchmark.py`):
  - bubble sort and merge sort;
  - linear and binary search;
  - brute-force and sliding-window selection of a minimal-spread window.
- **The stay lifecycle of `repositories.py`**:
  - the date-overlap conflict query;
  - manual room status and note changes;
  - recording service usage;
  - booking, check-in and checkout.

  Each write method is a pure transition from one database state to the next.

## Modules

| file | module | what it holds |
|---|---|---|
| `common.dfy` | `Common` | `Option`, `Distinct`, and `FirstIndex` (the row a `fetchone()` returns) |
| `records.dfy` | `Records` | the record shapes of `models.py`: `Room`, `Service`, `BillDetail`; room statuses |
| `sorting.dfy` | `Sorting` | the merge and merge sort by an integer key; stability; sort by price |
| `searching.dfy` | `Searching` | binary search over a key-sorted sequence; its integer and room-record uses |
| `availability.dfy` | `Availability` | `analyze_availability` and a reference definition of its result |
| `billing.dfy` | `Billing` | `calculate_bill` (days) and `calculate_bill_details` (hours) |
| `room_selection.dfy` | `RoomSelection` | minimal-spread windows and `find_closest_rooms` |
| `combos.dfy` | `Combos` | `suggest_service_combos` |
| `benchmark.dfy` | `Benchmark` | the lab's sorts, searches and window finders |
| `database.dfy` | `Database` | the tables, the schema's constraints (`Valid`), the conflict rule |
| `repositories.dfy` | `Repositories` | `update_status`, `update_note`, `add_usage`, `create_booking`, `check_in`, `checkout` |

## Modelling choices

- **Money** is an integer amount of VND. The schema stores money as `DECIMAL(18,0)`, while the Python code carries floats.
- **Time**:
  - Timestamps are integer seconds.
  - Dates are integer day numbers.
  - The clock (`datetime.now()`) is a parameter: `now` for timestamps, `today` for the check-in date.
- **Tables with an IDENTITY key** (`KhachHang`, `PhieuDatPhong`, `HoaDon`, `ChiTietSD`) are sequences whose positions are the row ids, counted from 0.
- **Tables keyed by their own primary key** (`Phong`, `DichVu`) are maps.
- **Queries read with `fetchone()`** are taken to return the matching row with the lowest id.
- **Queries read with `fetchall()` that have no `ORDER BY`** (the booking query of `check_in`) are taken to return their rows in ascending id order. SQL Server promises no order there. The model fixes id order, the order of the primary key `MaPD`, so the order claims about `check_in` hold only under this choice.
- **Text comparison in a `WHERE`** follows SQL Server's rule for `=` on `NVARCHAR`: the shorter string is padded with spaces, so two strings that differ only in trailing spaces are equal. `Database.SqlKey` drops the trailing spaces and `Database.SameText` compares what is left. Every CCCD lookup (`create_booking`, `check_in`) and the `UNIQUE` constraint on `CCCD` use it.
- **Column widths.** An `NVARCHAR(n)` column measures its values in UTF-16 code units: a character outside the Basic Multilingual Plane takes two (`Database.Utf16Length`). SQL Server refuses a value wider than `n` with a truncation error. The exception is a value whose excess is only trailing spaces: that value is cut to `n` units without an error. `Database.StoreText` says which value the column ends up holding, or that it refuses the value.
- **Failures.** Each transition returns `ok` together with the resulting store. On every failure path the store comes back unchanged. The code rolls back on these paths (`create_booking`, `check_in`, `checkout`), or fails before writing anything (the others). These writes fail:
  - a foreign-key violation:
    - a booking for a room number with no `Phong` row;
    - a usage line for an unknown service;
  - a value wider than its column, counted in UTF-16 code units, unless the excess is only trailing spaces:
    - a note over 500;
    - a guest name over 100;
    - a phone number over 15;
    - a new CCCD (national ID number) over 20;
  - an amount outside `DECIMAL(18,0)`;
  - a usage quantity outside `INT`.
- **Where the code and the design description disagree, the model follows the code:**
  - `create_booking` does not change the room's status. No code path writes a "booked" room status.
  - `update_status` refuses only the direct change from 'Đang ở' (occupied) to 'Trống' (free). `Repositories.OccupiedFreedThroughCleaning` shows that an occupied room can still be freed by hand in two steps.
  - `checkout` does not check that the invoice is unpaid or that the room is occupied. It writes to whatever invoice, room and booking ids it is given. An UPDATE that names no row changes nothing.
  - `check_in` selects bookings by CCCD alone, not by room and CCCD together.
  - `get_conflict_ids` also counts 'Đã cọc' (deposit paid) bookings as holding the room, though no code path writes that status.
  - `create_booking` checks neither the date range nor conflicts. The booking screen checks conflicts before it calls `create_booking`. `Repositories.BookingOfferedRoomsIsSafe` proves that booking rooms offered for the same range and the same store never double-books a room.
  - The booking screen does not keep that range. It computes the offer from the date fields when the search runs (gui.py:403-410) and reads the date fields again when the booking is confirmed (gui.py:521). If the dates are edited in between, or another booking is written in between, the rooms booked were never checked against the booked range. The model proves nothing about that path.

## Model

| member | source | states |
|---|---|---|
| Sorting.Merge | services.py:34-42 | the merge loop returns every element of both inputs exactly once (length and multiset) |
| Sorting.MergeSorted | services.py:36-42 | merging two key-sorted lists gives a key-sorted list |
| Sorting.MergeStable | services.py:37-38 | because ties go to the left (`<=`), elements with equal keys keep their order: left ones first |
| Sorting.MergeSort | services.py:27-43 | `merge_sort` returns a permutation of its input, sorted by `key` |
| Sorting.MergeSortStable | services.py:27-43 | for every key value, the elements with that key appear in input order |
| Sorting.MergeByPrice | utils.py:93-105 | `_merge` keeps all elements of both inputs; on price-sorted inputs the result is price-sorted |
| Sorting.MergeSortByPrice | utils.py:85-90 | `merge_sort_by_price` returns a price-sorted permutation; rooms of equal price keep their order |
| Searching.BinarySearchBy | services.py:48-57 | a reported position holds the target; on sorted input, "not found" means no element has the target key |
| Searching.BinarySearchInt | services.py:47-57 | True only if the target occurs; on an ascending list, True exactly when it occurs |
| Searching.BinarySearchRoom | utils.py:31-39 | a returned record is in the list and has the target id; on an id-sorted list, None means no record has that id |
| Availability.AnalyzeAvailability | services.py:8-23 | one entry per type with a free room; type ids distinct; `room_ids` is exactly the free rooms of the type in encounter order; `count == len(room_ids)`; the entry's name, price and capacity come from the type's first free room |
| Availability.AddRoomSummarises | services.py:12-22 | one iteration of the loop keeps the result a correct summary of the rooms seen so far |
| Availability.ListedIffFree | utils.py:13-27 | with unique room ids, a room is listed under its own type iff its id is not busy and it is not under maintenance, and it is listed under no other type |
| Availability.ListedOnlyIfFree | utils.py:13-27 | with unique room ids, every entry lists a room iff the entry is for the room's type and the room is free |
| Availability.FreeRoomListed | utils.py:13-27 | a free room is listed in some entry, and that entry is for its type |
| Billing.CeilDiv | services.py:65 | `ceil(a / b)` is the unique `q` with `b*(q-1) < a <= b*q` |
| Billing.UnitsUsed | services.py:65-66 | the number of billed units is at least 1, covers the elapsed time, and is the least such number |
| Billing.UnitsUsedMonotone | services.py:65-66 | a later checkout never bills fewer units |
| Billing.ServiceTotalAppend | services.py:69 | the service sum over two lists of lines is the sum of their sums |
| Billing.CalculateBill | services.py:60-78 | `days_used` is the least whole number of days (at least 1) covering the stay; `room_total == days_used * price`; `service_total` is the sum of `qty * price`; `grand_total == room_total + service_total`; the identifying fields are copied |
| Billing.CalculateBillMonotone | services.py:65-77 | at a non-negative price, checking out later never lowers the days, the room charge or the grand total |
| Billing.TwentyFiveHourStay | services.py:65-77 | 25 hours at 150000 a day with two 15000 drinks bills 2 days: 300000 + 30000 = 330000 |
| Billing.CalculateBillDetails | utils.py:43-82 | hours used is at least 1 and is the least number covering the stay; `room_total == hours * price`; one output line per input line, in order, each with `subtotal == qty * price`; `service_total` is their sum; `grand_total == room_total + service_total` |
| RoomSelection.SortIds | services.py:84 | the id list after `sort()` is a sorted permutation of it |
| RoomSelection.FirstMinimalWindowUnique | services.py:98-100 | at most one window is the first one of least spread |
| RoomSelection.TightWindowIsOptimal | services.py:102-103 | over distinct ids, stopping at a window of spread `quantity - 1` is safe: no earlier window was as tight, so it is the first minimal one |
| RoomSelection.ScanWindows | services.py:90-103 | the scan keeps a window no earlier window is as tight as; when it runs to the end that window has the least spread of all, and when it breaks early its spread is at most `quantity - 1` |
| RoomSelection.ScanConclusion | services.py:93-105 | over distinct ids, either way the scan ends, the kept window is the first one of least spread |
| RoomSelection.FindClosestRooms | services.py:83-105 | None iff fewer ids than `quantity`; otherwise a contiguous run of `quantity` sorted ids with no earlier run as tight; for distinct ids it is the first run of least spread |
| Combos.Backtrack | services.py:114-131 | every combo recorded uses strictly increasing positions (each service at most once), its names match its positions, and `0 < total <= max_budget` with `total` the sum of its prices |
| Combos.TryFrom | services.py:121-131 | the loop over later services records only valid combos |
| Combos.ByPrice | services.py:133 | the services are sorted by price as a permutation of the input |
| Combos.AllCombos | services.py:133-134 | every combo the search finds is valid for the price-sorted list |
| Combos.BacktrackComplete | services.py:114-131 | with non-negative prices, the search finds every extension of the current combo by later services that fits the budget |
| Combos.AllCombosComplete | services.py:114-134 | with non-negative prices, every valid combo is found; with `AllCombos` this means the search finds exactly the valid combos |
| Combos.FirstFive | services.py:137 | `results[:5]` is a prefix of at most five elements, and the whole list when it is shorter |
| Combos.FirstFiveAreTop | services.py:136-137 | after a sort by descending total, the first five are in non-increasing order, come from the results, and no left-out combo has a higher total than the fifth |
| Combos.SuggestServiceCombos | services.py:107-137 | at most five valid combos, by non-increasing total, and no combo left out beats the last one returned |
| Benchmark.MergeSortInts | benchmark.py:20-34 | `merge_sort` returns a sorted permutation |
| Benchmark.BubblePass | benchmark.py:14-16 | one inner pass permutes the prefix, carries its largest element to the end of the prefix, and leaves the sorted suffix alone |
| Benchmark.OrderPair | benchmark.py:15-16 | after the compare-and-swap the pair is in order, holds the same two values, and no other position changed |
| Benchmark.BubbleSort | benchmark.py:10-17 | `bubble_sort` returns a sorted permutation, equal to what `merge_sort` returns |
| Benchmark.LinearSearch | benchmark.py:37-40 | True iff the target occurs |
| Benchmark.BinarySearch | benchmark.py:43-50 | True only if the target occurs; on sorted input, True iff it occurs |
| Benchmark.CompareSearches | benchmark.py:37-50 | on sorted input, linear and binary search agree, and both answer membership |
| Benchmark.NestedLoopFind | benchmark.py:53-63 | `[]` when the list is shorter than `k`; otherwise the first length-`k` window of least spread |
| Benchmark.SlidingWindowFind | benchmark.py:66-75 | no bounds iff the list is shorter than `k`; otherwise `(i, i+k)` where `i` starts the first window of least spread |
| Benchmark.CompareWindowFinders | benchmark.py:53-75 | both finders select the same window: the slice the sliding bounds delimit equals the nested-loop window |
| Database.ConflictIdsMembership | repositories.py:21-28 | a room id is reported iff one of its bookings has an active status and overlaps the range (`NgayDen < e` and `NgayDi > s`) |
| Database.ConflictsIffSharedNight | repositories.py:23-25 | for non-empty ranges, a booking conflicts iff it is active and shares a night with the range; a stay ending on the first day of the range, or starting on its end day, does not conflict |
| Repositories.UpdateStatus | repositories.py:30-40 | succeeds iff the room exists and the change is not from occupied to free; on success only that room's status changes, otherwise nothing changes |
| Repositories.OccupiedFreedThroughCleaning | repositories.py:35-38 | the direct change from occupied to free is refused, but going through 'Đang dọn' (cleaning) frees an occupied room in two accepted calls |
| Database.StoreText | database.py:54 | an `NVARCHAR(width)` column accepts a value iff the value without its trailing spaces fits in `width` UTF-16 code units; a value that fits is stored unchanged; a wider accepted value is cut to exactly `width` units, keeps a prefix of the value and compares equal to it |
| Database.ShortTextStored | database.py:42-44 | a value of at most half the width fits whatever its characters, and is stored unchanged |
| Repositories.UpdateNote | repositories.py:42-48 | fails only for an existing room whose new note, without trailing spaces, exceeds 500 UTF-16 code units; on success only that room's note changes, to the note as the column stores it (a prefix that compares equal to the note, and the note itself when it fits); an unknown room succeeds with nothing changed |
| Repositories.AstralNoteRefused | repositories.py:43-48 | a note of more than 250 characters outside the Basic Multilingual Plane fails, although it has at most 500 characters |
| Repositories.PaddedNoteTruncated | repositories.py:43-46 | a note of 500 BMP characters followed by a space succeeds and is stored without the space |
| Repositories.StayingBooking | repositories.py:60-63 | the booking found is one of the room's 'Đang ở' (staying) bookings; none is found exactly when the room has no staying booking |
| Repositories.LineOf | repositories.py:65-66 | the line found belongs to the (reservation, service) pair; none is found exactly when the pair has no line |
| Repositories.AddUsage | repositories.py:58-79 | succeeds iff the room has a staying booking and either the pair already has a line whose new quantity fits `INT`, or it has none, the service exists (foreign key on `MaDV`) and `qty` fits `INT`; on failure nothing changes; on success only the usage lines change |
| Repositories.AddUsageAddsQuantity | repositories.py:65-76 | on success, the staying booking's (reservation, service) pair gains exactly `qty` and every other pair's total is unchanged; when the pair had a line, that row alone gets `qty` added and the table keeps its length; when it had none, exactly one line `(booking, service, qty, now)` is appended; pairs stay unique |
| Repositories.AddedRows | repositories.py:68-74 | over plain rows: updating the pair's line in place keeps the length and every other row, appending a line grows the table by one, and either way the pair total grows by `qty` and pairs stay unique |
| Repositories.UpdateLineQuantities | repositories.py:68-71 | raising the quantity of a line of the pair by `qty` adds `qty` to that pair's total only, and pairs stay unique |
| Repositories.AppendLineQuantities | repositories.py:72-74 | inserting a line for a pair that had none adds its quantity to that pair only, and pairs stay unique |
| Repositories.AddUsageValid | repositories.py:58-79 | `add_usage` keeps the foreign keys and the uniqueness of CCCD |
| Database.SqlKey | repositories.py:92 | the key is the string with its trailing spaces removed: a prefix of it, followed only by spaces, and not ending in a space |
| Database.SameTextIffPadded | repositories.py:92 | two strings compare equal iff each is one common string followed by spaces only |
| Database.SqlKeyOfPadded | repositories.py:92 | appending spaces to a string does not change its key |
| Repositories.GuestByCccd | repositories.py:92-93 | the guest found is the lowest-id guest whose CCCD compares equal to the argument, ignoring trailing spaces; none is found exactly when no guest's does |
| Repositories.GuestByCccdIgnoresPadding | repositories.py:92-93 | looking up a CCCD with trailing spaces finds the same guest as looking it up without them |
| Repositories.CreateBooking | repositories.py:87-120 | succeeds iff every room exists and the name, the phone and (for an unknown CCCD) the CCCD fit their columns once trailing spaces are dropped; on failure nothing changes; on success only guests and bookings change |
| Repositories.CreateBookingUpsertsGuest | repositories.py:92-114 | a known CCCD keeps its guest id and its stored CCCD, gets the new name and phone as their columns store them, and no other guest changes; an unknown CCCD adds exactly one guest, holding the three values as their columns store them; either way the lookup now finds that guest; one 'Đã xác nhận' (confirmed) booking for that guest is appended per room, in order |
| Repositories.RefreshedGuestFound | repositories.py:95-99 | refreshing the found guest's name and phone keeps it the guest the lookup finds, changes no other guest and keeps the guest count |
| Repositories.AppendedGuestFound | repositories.py:102-107 | after inserting a guest for a CCCD that matched nobody, with a stored CCCD that compares equal to it, the lookup by that CCCD finds the new row |
| Repositories.PaddedCccdRefreshesGuest | repositories.py:92-99 | booking with CCCD `"001 "` when guest `"001"` exists updates that guest's name and phone rather than adding a second guest |
| Repositories.CreateBookingValid | repositories.py:95-114 | `create_booking` keeps the foreign keys and the uniqueness of CCCD |
| Repositories.CreateBookingNoDoubleBooking | repositories.py:110-114 | booking distinct rooms, none of them reported by the conflict query for the range, keeps every room free of overlapping active bookings |
| Repositories.NewBookingsSafe | repositories.py:110-114 | appending one confirmed booking per distinct room, for a range none of those rooms conflicts with, to bookings with no overlap keeps bookings with no overlap |
| Repositories.BookingOfferedRoomsIsSafe | repositories.py:110-114 | booking distinct rooms taken from an entry of the availability analysis for the range never double-books a room |
| Repositories.OfferedIffNoConflict | repositories.py:21-28 | a room is offered for a range iff it is not under maintenance and none of its bookings is active and overlaps the range; it is offered only under its own type |
| Repositories.Bookings | repositories.py:128-136 | the query returns exactly the confirmed bookings of every guest whose CCCD compares equal to the argument, ignoring trailing spaces, each once and in id order (the order taken for a `fetchall()` without `ORDER BY`) |
| Repositories.BookingsIgnorePadding | repositories.py:128-134 | trailing spaces on the CCCD do not change which bookings the query returns |
| Repositories.CheckInIgnoresPadding | repositories.py:128-134 | `check_in` with a CCCD followed by spaces has the same outcome, store and rooms as with the bare CCCD |
| Repositories.ArrivingOn | repositories.py:144-150 | the filter keeps exactly the bookings arriving today, in order |
| Repositories.CheckIn | repositories.py:122-178 | succeeds iff the guest has a confirmed booking arriving today; on failure nothing changes and no rooms are reported |
| Repositories.RoomsOf | repositories.py:144-148 | the reported room list has one entry per due booking, each that booking's room, in the same order |
| Repositories.CheckInTransitions | repositories.py:157-162 | on success, exactly the bookings due today become 'Đang ở', and every other booking is untouched; exactly their rooms become occupied; guests, services and usage are unchanged; the reported rooms are the due bookings' rooms, in the order the query returned the bookings (id order, as above) |
| Repositories.CheckInOpensInvoices | repositories.py:164-166 | existing invoices are kept; every checked-in booking has an invoice; each new invoice is unpaid with zero totals, stamped `now`, for a due booking that had none, and no booking gets two |
| Repositories.CheckInValid | repositories.py:157-166 | `check_in` keeps the foreign keys and the uniqueness of CCCD |
| Repositories.CheckInKeepsConflicts | repositories.py:161 | the conflict query returns the same list after check-in for every range, because confirmed and staying bookings both hold their room |
| Repositories.Checkout | repositories.py:205-227 | succeeds iff the final total and the surcharge fit `DECIMAL(18,0)`; on failure nothing changes; on success guests, services and usage are unchanged and no row is added |
| Repositories.CheckoutWrites | repositories.py:209-221 | the invoice gets `grand_total + surcharge`, the surcharge and 'Đã thanh toán' (paid); the room becomes 'Đang dọn' (cleaning) with its note cleared; the booking becomes 'Hoàn tất' (completed); every other row is unchanged |
| Repositories.CheckoutReleasesRoom | repositories.py:221 | the completed booking conflicts with no range, and the conflict query never reports a room after checkout that it did not report before |
| Repositories.CheckoutValid | repositories.py:209-221 | `checkout` keeps the foreign keys and the uniqueness of CCCD |

## Left out

- I/O and the environment:
  - the SQL text, the pyodbc cursor and connection, and commit and rollback as operations;
  - the `get_all` readers and `get_bill_raw_data`. Their results are the inputs of the modelled functions.
- The clock: `datetime.now()` is a parameter. Float prices and `total_seconds()` are modelled as integers, with ceiling division on whole seconds.
- Room statuses other than the four the schema seeds, and any status string `update_status` may be given outside them. `Records.RoomStatus` has exactly those four.
- The in-place effects of `available_ids.sort()` and `service_list.sort()` on the caller's list. The model works on values and returns the sorted sequence.
- The error messages and the result dictionary's `name` and `count` fields of `check_in`. `count` is the length of the reported rooms.
- Database errors the model does not name, such as a lost connection or a malformed date string.
- Rows with a NULL status or foreign key. The model has no NULLs.
- The lab's timing harness (`measure`, `run_tests`, `sys.setrecursionlimit`).
- `gui.py`, `app.py`, `database.py` (beyond its constraints) and `config.py` are not part of this model.
- RoomSelection.FindClosestRooms: requires `quantity >= 1`, because for `quantity <= 0` the code indexes an empty window and raises. It states first-minimality only for distinct ids, because with repeated ids the early stop at spread `quantity - 1` can end the scan before a tighter window.
- Benchmark.NestedLoopFind: requires `k >= 1`. This excludes only calls that raise: for `k <= 0` the loop runs at least once, its window `arr[i:i+k]` is empty, and `window[-1]` raises `IndexError`.
- Benchmark.SlidingWindowFind: requires `k >= 1`. This excludes only calls that raise: for `k <= 0`, `range(n - k + 1)` reaches `i = n - k >= n`, and `arr[i]` raises `IndexError` there.
- Repositories.GuestByCccd: compares CCCDs only up to trailing spaces. The default collation of SQL Server also ignores letter case, and the model does not fold case. Two CCCDs that differ only in case are different guests in the model and the same guest in the database.
- Repositories.Bookings: the same: the CCCD match of the `check_in` query ignores trailing spaces but not letter case.
- Combos.AllCombosComplete: assumes non-negative prices, as every seeded service has. Completeness for lists with negative prices is not proved.
- Combos.SuggestServiceCombos: does not state which combos tie-break at the fifth place beyond the stable sort, that is, discovery order.
