/** Lines as std::getline yields them. */
module TextLines {

  /** The line without the carriage return that a "\r\n" ending leaves. */
  function WithoutReturn(line: string): string {
    if line != [] && line[|line| - 1] == '\r' then line[..|line| - 1] else line
  }
}
