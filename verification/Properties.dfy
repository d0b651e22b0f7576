/** lib_properties: the properties which have a special role. */
module Properties {
  const SORT_PREFIX := "----"
  const PRIMNS := "http://primhillcomputers.com/ontologies/"
  const SOCKET_END := PRIMNS + "socket_end"
  const INFORMATION := PRIMNS + SORT_PREFIX + "Information"
  const NOLIST1 := PRIMNS + "Data1"
  const NOLIST2 := PRIMNS + "Data2"
  const NOLIST3 := PRIMNS + "Data3"
  const ALIAS := PRIMNS + "alias"
}
