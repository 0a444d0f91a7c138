/** The JSON values the bridge publishes, with objects as ordered member lists. */
module Json {
  import opened Dicts

  datatype Json = JNull | JInt(i: int) | JStr(s: string) | JObj(members: Dict<Json>)
}
