/** Static metadata of a disk. */
module DiskInfos {
  datatype DiskInfo = DiskInfo(
    path: string, canonicalPath: string, name: string, links: seq<string>, major: int, minor: int,
    bus: string, model: string, vendor: string, serial: string, serialShort: string, wwn: string,
    busPath: string, firmwareVersion: string)
}
