/** The watch events of the Kubernetes API, as far as the queues and handlers look at them. */
module Watch {
  import opened Wrappers

  datatype EventType = Added | Modified | Deleted | Bookmark | Error

  datatype OperatorCommand = OperatorCommand(name: string, createdAt: int, completed: bool)

  datatype ObjectMeta = ObjectMeta(namespace: string, name: string)

  /** `meta` is None for objects that do not implement metav1.Object; `command` is what the object converts to
      if it is an unstructured OperatorCommand. */
  datatype Object = Object(
    group: string,
    version: string,
    kind: string,
    meta: Option<ObjectMeta>,
    command: Option<OperatorCommand>)

  datatype Event = Event(eventType: EventType, obj: Object)
}
