/**
 * The todo-list domain: the list filter, a todo item, its constructor, and
 * the fixed pool of sample messages the "add a random todo" button draws from.
 */
module Domain {

  /** The list filter. Dafny datatypes come with structural equality. */
  datatype Filter = All | Active | Completed

  function DefaultFilter(): (f: Filter)
    ensures f == All
  {
    All
  }

  /** An unsigned 16-bit integer, the width of a todo's ordinal. */
  type U16 = x: int | 0 <= x < 0x1_0000

  /** The ordinal a new todo gets: it asks the ordering pass to move it to the end. */
  const UnplacedOrdinal: U16 := 0

  /** `text` is the todo's label (`label` is a reserved word in Dafny). */
  datatype Todo = Todo(text: string, completed: bool, ordinal: U16)

  /** A new todo keeps its label text, starts incomplete and carries the unplaced ordinal. */
  function NewTodo(text: string): (t: Todo)
    ensures t.text == text
    ensures !t.completed
    ensures t.ordinal == UnplacedOrdinal
  {
    Todo(text, false, UnplacedOrdinal)
  }

  /** The sample messages, in the order they are listed (one of them is listed twice). */
  const Messages: seq<string> := [
    "Lorem ipsum dolor sit amet",
    "consectetur adipiscing elit",
    "Proin vel eros dolor",
    "Cras luctus vehicula ex",
    "Proin vel eros dolor",
    "at dapibus massa viverra id",
    "Vestibulum nec tempor lacus",
    "eget lobortis ligula",
    "Sed vel gravida neque",
    "ac sollicitudin purus",
    "Aenean aliquet odio quis nulla varius",
    "Phasellus vitae nibh leo",
    "Maecenas lobortis porttitor consectetur",
    "Sed congue, ex a blandit congue",
    "erat erat ullamcorper orci",
    "vitae euismod eros lacus ut eros",
    "Ut molestie metus leo",
    "eget posuere tellus maximus a",
    "Nulla porttitor faucibus ullamcorper",
    "Phasellus feugiat felis at odio",
    "consectetur lacinia. Nullam fermentum",
    "malesuada consequat"
  ]

  /**
   * A random sample message. The random generator's pick is the argument
   * `choice`: any index into the list, which is never empty, so there is
   * always a message to return.
   */
  function RandomMessage(choice: nat): (m: string)
    requires choice < |Messages|
    ensures m in Messages
    ensures |m| > 0
  {
    Messages[choice]
  }

  /** Every listed message can be drawn, and the pool is not empty. */
  lemma EveryMessageCanBeDrawn(m: string)
    requires m in Messages
    ensures |Messages| == 22
    ensures exists choice :: 0 <= choice < |Messages| && RandomMessage(choice) == m
  {
    var i :| 0 <= i < |Messages| && Messages[i] == m;
    assert RandomMessage(i) == m;
  }

  /** A todo built from a random message is an incomplete, unplaced sample message. */
  lemma RandomTodoIsSample(choice: nat)
    requires choice < |Messages|
    ensures NewTodo(RandomMessage(choice)).text in Messages
    ensures !NewTodo(RandomMessage(choice)).completed
    ensures NewTodo(RandomMessage(choice)).ordinal == 0
  {
  }
}
