/**
 * The record shapes of models.py and the status vocabularies the code compares
 * against. Money is an integer number of VND (the schema stores DECIMAL(18,0));
 * the float values the Python code carries are not modelled.
 */
module Records {

  /** Room status strings: 'Trống', 'Đang ở', 'Đang dọn', 'Bảo trì'. */
  datatype RoomStatus = Free | Occupied | Cleaning | Maintenance

  /** models.Room: one row of Phong joined with its LoaiPhong. */
  datatype Room = Room(
    id: int,
    status: RoomStatus,
    typeId: int,
    typeName: string,
    price: int,
    capacity: int,
    note: string)

  /** models.Service: one row of DichVu. */
  datatype Service = Service(id: int, name: string, price: int)

  /** One usage line as the bill queries return it: service name, quantity, unit price. */
  datatype ServiceItem = ServiceItem(name: string, qty: int, price: int)

  /** models.BillDetail: the itemised bill of the desktop front end (unit = one day). */
  datatype BillDetail = BillDetail(
    maHd: int,
    maPd: int,
    customerName: string,
    checkIn: int,
    checkOut: int,
    daysUsed: int,
    roomPrice: int,
    roomTotal: int,
    serviceItems: seq<ServiceItem>,
    serviceTotal: int,
    grandTotal: int)

  function RoomId(r: Room): int { r.id }
  function RoomPrice(r: Room): int { r.price }
  function ServicePrice(s: Service): int { s.price }
}
